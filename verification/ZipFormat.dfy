/** The three records of the archive, field by field (sections 4.3.7, 4.3.12 and 4.3.16 of PKWARE APPNOTE 6.3). */
module ZipFormat {
  import opened Bytes
  import opened Zip

  /** A number cut to its field. */
  lemma {:induction false} NumberCut(n: nat, k: nat)
    ensures Number(LittleEndian(n, k)) == n % Pow256(k)
  {
    if k > 0 {
      NumberCut(n / 256, k - 1);
      CutStep(n, Pow256(k - 1));
    }
  }

  lemma CutStep(n: nat, p: nat)
    requires p > 0
    ensures n % (256 * p) == n % 256 + 256 * (n / 256 % p)
  {
    var (q, r) := (n / 256 / p, n % 256 + 256 * (n / 256 % p));
    assert n / 256 == q * p + n / 256 % p;
    assert n == 256 * (q * p) + r;
    assert 256 * (q * p) == q * (256 * p);
    Remainder(q, 256 * p, r);
  }

  lemma FieldsHold(n: nat)
    ensures Number(U16(n)) == n % 0x1_0000 && Number(U32(n)) == n % 0x1_0000_0000
  {
    NumberCut(n, 2);
    NumberCut(n, 4);
    assert Pow256(2) == 0x1_0000 && Pow256(4) == 0x1_0000_0000;
    hide LittleEndian, Number;
  }

  lemma ZeroField()
    ensures U16(0) == [0, 0] && U32(0) == [0, 0, 0, 0] && U16(20) == [20, 0]
  {
  }

  /** A local header: its signature, version 20, nothing set, then the checksum, both sizes and the name's length, each
      cut to its field, and no extra field. */
  lemma LocalFields(crc: nat, size: nat, nameLength: nat)
    ensures var h := LocalHeader(crc, size, nameLength);
            && |h| == 30 && h[..14] == [0x50, 0x4b, 3, 4, 20, 0, 0, 0, 0, 0, 0, 0, 0, 0]
            && Number(h[14..18]) == crc % 0x1_0000_0000
            && Number(h[18..22]) == size % 0x1_0000_0000 && Number(h[22..26]) == size % 0x1_0000_0000
            && Number(h[26..28]) == nameLength % 0x1_0000 && h[28..30] == [0, 0]
  {
    FieldsHold(crc);
    FieldsHold(size);
    FieldsHold(nameLength);
    ZeroField();
    hide U16, U32, Number;
    var h := LocalHeader(crc, size, nameLength);
    assert h[14..18] == U32(crc) && h[18..22] == U32(size) && h[22..26] == U32(size);
    assert h[26..28] == U16(nameLength) && h[28..30] == U16(0);
  }

  /** A central header has the same facts, and the offset of the local one. */
  lemma CentralFields(crc: nat, size: nat, nameLength: nat, offset: nat)
    ensures var h := CentralHeader(crc, size, nameLength, offset);
            && |h| == 46 && h[..16] == [0x50, 0x4b, 1, 2, 20, 0, 20, 0, 0, 0, 0, 0, 0, 0, 0, 0]
            && Number(h[16..20]) == crc % 0x1_0000_0000
            && Number(h[20..24]) == size % 0x1_0000_0000 && Number(h[24..28]) == size % 0x1_0000_0000
            && Number(h[28..30]) == nameLength % 0x1_0000
            && h[30..42] == [0, 0, 0, 0, 0, 0, 0, 0, 0, 0, 0, 0]
            && Number(h[42..46]) == offset % 0x1_0000_0000
  {
    FieldsHold(crc);
    FieldsHold(size);
    FieldsHold(nameLength);
    FieldsHold(offset);
    ZeroField();
    hide U16, U32, Number;
    var h := CentralHeader(crc, size, nameLength, offset);
    assert h[16..20] == U32(crc) && h[20..24] == U32(size) && h[24..28] == U32(size);
    assert h[28..30] == U16(nameLength) && h[42..46] == U32(offset);
    assert h[30..42] == U16(0) + U16(0) + U16(0) + U16(0) + U32(0);
  }

  /** The end record: how many entries, twice, then the directory's length and offset, and no comment. */
  lemma EndFields(entries: nat, size: nat, offset: nat)
    ensures var h := EndRecord(entries, size, offset);
            && |h| == 22 && h[..8] == [0x50, 0x4b, 5, 6, 0, 0, 0, 0]
            && Number(h[8..10]) == entries % 0x1_0000 && Number(h[10..12]) == entries % 0x1_0000
            && Number(h[12..16]) == size % 0x1_0000_0000 && Number(h[16..20]) == offset % 0x1_0000_0000
            && h[20..22] == [0, 0]
  {
    FieldsHold(entries);
    FieldsHold(size);
    FieldsHold(offset);
    ZeroField();
    hide U16, U32, Number;
    var h := EndRecord(entries, size, offset);
    assert h[8..10] == U16(entries) && h[10..12] == U16(entries);
    assert h[12..16] == U32(size) && h[16..20] == U32(offset) && h[20..22] == U16(0);
  }
}
