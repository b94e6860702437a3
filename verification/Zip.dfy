/** The stored-only ZIP writer of the diagnostic archive, and a reader that starts from the
    end record (sections 4.3.7, 4.3.12 and 4.3.16 of PKWARE APPNOTE 6.3). */
module Zip {
  import opened Bytes
  import Crc
  import opened Wrappers

  datatype File = File(name: seq<Byte>, contents: seq<Byte>)

  /** Nothing below depends on which 32-bit checksum is stored. */
  type Sum = seq<Byte> -> nat

  // ---- The three records ----

  const LOCAL_SIGNATURE: seq<Byte> := [0x50, 0x4b, 3, 4]
  const CENTRAL_SIGNATURE: seq<Byte> := [0x50, 0x4b, 1, 2]
  const END_SIGNATURE: seq<Byte> := [0x50, 0x4b, 5, 6]

  function U16(n: nat): (s: seq<Byte>)
    ensures |s| == 2
  {
    LittleEndian(n, 2)
  }

  function U32(n: nat): (s: seq<Byte>)
    ensures |s| == 4
  {
    LittleEndian(n, 4)
  }

  /** Checksum, both sizes and the name length, as both headers carry them. */
  function Facts(crc: nat, size: nat, nameLength: nat): (s: seq<Byte>)
    ensures |s| == 14
  {
    U32(crc) + U32(size) + U32(size) + U16(nameLength)
  }

  function LocalHeader(crc: nat, size: nat, nameLength: nat): (s: seq<Byte>)
    ensures |s| == 30
  {
    LOCAL_SIGNATURE + U16(20) + U16(0) + U16(0) + U16(0) + U16(0) + Facts(crc, size, nameLength) + U16(0)
  }

  function CentralHeader(crc: nat, size: nat, nameLength: nat, offset: nat): (s: seq<Byte>)
    ensures |s| == 46
  {
    CENTRAL_SIGNATURE + U16(20) + U16(20) + U16(0) + U16(0) + U16(0) + U16(0) + Facts(crc, size, nameLength)
    + U16(0) + U16(0) + U16(0) + U16(0) + U32(0) + U32(offset)
  }

  function EndRecord(entries: nat, size: nat, offset: nat): (s: seq<Byte>)
    ensures |s| == 22
  {
    END_SIGNATURE + U16(0) + U16(0) + U16(entries) + U16(entries) + U32(size) + U32(offset) + U16(0)
  }

  function LocalRecord(sum: Sum, f: File): seq<Byte> {
    LocalHeader(sum(f.contents), |f.contents|, |f.name|) + f.name + f.contents
  }

  function CentralRecord(sum: Sum, f: File, offset: nat): seq<Byte> {
    CentralHeader(sum(f.contents), |f.contents|, |f.name|, offset) + f.name
  }

  function LocalRecords(sum: Sum, files: seq<File>): (r: seq<seq<Byte>>)
    ensures |r| == |files|
  {
    seq(|files|, i requires 0 <= i < |files| => LocalRecord(sum, files[i]))
  }

  /** A directory entry carries the offset at which the file's local record was written. */
  function CentralRecords(sum: Sum, files: seq<File>): (r: seq<seq<Byte>>)
    ensures |r| == |files|
  {
    seq(|files|, i requires 0 <= i < |files| => CentralRecord(sum, files[i], |Locals(sum, files[..i])|))
  }

  function Locals(sum: Sum, files: seq<File>): seq<Byte> {
    Flat(LocalRecords(sum, files))
  }

  function Centrals(sum: Sum, files: seq<File>): seq<Byte> {
    Flat(CentralRecords(sum, files))
  }

  function Archive(sum: Sum, files: seq<File>): seq<Byte> {
    var locals, centrals := Locals(sum, files), Centrals(sum, files);
    locals + centrals + EndRecord(|files|, |centrals|, |locals|)
  }

  // ---- The writer ----

  /** `None` is the refusal of a name that does not fit its 16-bit length. */
  method GenerateDiagnosticZip(files: seq<File>) returns (r: Option<seq<Byte>>)
    ensures r.None? <==> exists i :: 0 <= i < |files| && |files[i].name| > 0xffff
    ensures r.Some? ==> r.value == Archive(Crc.Checksum, files)
  {
    hide Locals, Centrals, LocalRecord, CentralRecord, LocalHeader, CentralHeader, EndRecord, LittleEndian, FromBits,
        Crc.Checksum;
    NothingWritten(Crc.Checksum, files);
    var out: seq<Byte>, central: seq<Byte> := [], [];
    var entries := 0;
    for i := 0 to |files|
      invariant out == Locals(Crc.Checksum, files[..i]) && central == Centrals(Crc.Checksum, files[..i])
      invariant entries == i % 0x1_0000
      invariant forall k :: 0 <= k < i ==> |files[k].name| <= 0xffff
    {
      var file := files[i];
      if |file.name| > 0xffff {
        return None;
      }
      var register := Crc.Crc32(file.contents);
      var crc := FromBits(register);
      var size := |file.contents|;
      var localOffset := |out|;
      OneMoreFile(Crc.Checksum, files, i);
      RecordsOf(Crc.Checksum, file, crc, localOffset);

      out := out + (LocalHeader(crc, size, |file.name|) + file.name + file.contents);
      central := central + (CentralHeader(crc, size, |file.name|, localOffset) + file.name);
      entries := (entries + 1) % 0x1_0000;
    }
    assert files[..|files|] == files;
    EndRecordCut(|files|, |central|, |out|);
    r := Some(out + central + EndRecord(entries, |central|, |out|));
  }

  lemma NothingWritten(sum: Sum, files: seq<File>)
    ensures Locals(sum, files[..0]) == [] && Centrals(sum, files[..0]) == []
  {
  }

  lemma RecordsOf(sum: Sum, f: File, crc: nat, offset: nat)
    requires crc == sum(f.contents)
    ensures LocalRecord(sum, f) == LocalHeader(crc, |f.contents|, |f.name|) + f.name + f.contents
    ensures CentralRecord(sum, f, offset) == CentralHeader(crc, |f.contents|, |f.name|, offset) + f.name
  {
  }

  lemma OneMoreFile(sum: Sum, files: seq<File>, i: nat)
    requires i < |files|
    ensures Locals(sum, files[..i + 1]) == Locals(sum, files[..i]) + LocalRecord(sum, files[i])
    ensures Centrals(sum, files[..i + 1])
        == Centrals(sum, files[..i]) + CentralRecord(sum, files[i], |Locals(sum, files[..i])|)
  {
    var fewer, more := files[..i], files[..i + 1];
    assert more[..i] == fewer;
    FlatSnoc(LocalRecords(sum, fewer), LocalRecord(sum, files[i]));
    assert LocalRecords(sum, more) == LocalRecords(sum, fewer) + [LocalRecord(sum, files[i])];
    FlatSnoc(CentralRecords(sum, fewer), CentralRecord(sum, files[i], |Locals(sum, fewer)|));
    assert CentralRecords(sum, more)
        == CentralRecords(sum, fewer) + [CentralRecord(sum, files[i], |Locals(sum, fewer)|)] by {
      assert forall k :: 0 <= k < i ==> more[..k] == fewer[..k];
    }
  }

  lemma EndRecordCut(n: nat, size: nat, offset: nat)
    ensures EndRecord(n % 0x1_0000, size, offset) == EndRecord(n, size, offset)
  {
    CutOff16(n);
  }

  lemma CutOff16(n: nat)
    ensures U16(n % 0x1_0000) == U16(n)
  {
    assert (n % 0x1_0000) % 256 == n % 256 && (n % 0x1_0000) / 256 % 256 == n / 256 % 256;
    assert LittleEndian(n / 256, 1) == [n / 256 % 256];
    assert LittleEndian((n % 0x1_0000) / 256, 1) == [(n % 0x1_0000) / 256 % 256];
  }

  // ---- The reader ----

  function NumberAt(z: seq<Byte>, pos: nat, size: nat): nat
    requires pos + size <= |z|
  {
    Number(z[pos..pos + size])
  }

  predicate At(z: seq<Byte>, pos: nat, s: seq<Byte>) {
    pos + |s| <= |z| && z[pos..pos + |s|] == s
  }

  /** The stored file behind a local header, if it is the one the directory announces. */
  function ReadLocal(sum: Sum, z: seq<Byte>, pos: nat, name: seq<Byte>, crc: nat, size: nat): Option<File> {
    if pos + 30 > |z| || !At(z, pos, LOCAL_SIGNATURE) || NumberAt(z, pos + 8, 2) != 0 then None
    else if NumberAt(z, pos + 14, 4) != crc || NumberAt(z, pos + 18, 4) != size
        || NumberAt(z, pos + 22, 4) != size then None
    else
      var nameLength, extra := NumberAt(z, pos + 26, 2), NumberAt(z, pos + 28, 2);
      var data := pos + 30 + nameLength + extra;
      if nameLength != |name| || !At(z, pos + 30, name) || data + size > |z| then None
      else
        var contents := z[data..data + size];
        if sum(contents) != crc then None else Some(File(name, contents))
  }

  /** The directory entry at `pos` with its file, and where the next entry starts. */
  function ReadEntry(sum: Sum, z: seq<Byte>, pos: nat): Option<(File, nat)> {
    if pos + 46 > |z| || !At(z, pos, CENTRAL_SIGNATURE) || NumberAt(z, pos + 10, 2) != 0 then None
    else
      var crc, packed, size := NumberAt(z, pos + 16, 4), NumberAt(z, pos + 20, 4), NumberAt(z, pos + 24, 4);
      var nameLength, extra, comment := NumberAt(z, pos + 28, 2), NumberAt(z, pos + 30, 2), NumberAt(z, pos + 32, 2);
      if packed != size || pos + 46 + nameLength > |z| then None
      else
        var file := ReadLocal(sum, z, NumberAt(z, pos + 42, 4), z[pos + 46..pos + 46 + nameLength], crc, size);
        if file.None? then None else Some((file.value, pos + 46 + nameLength + extra + comment))
  }

  /** `n` directory entries from `pos` on, which must end at `limit`. */
  function ReadCentral(sum: Sum, z: seq<Byte>, pos: nat, n: nat, limit: nat): (r: Option<seq<File>>)
    ensures r.Some? ==> |r.value| == n
    decreases n
  {
    if n == 0 then
      if pos == limit then Some([]) else None
    else
      var entry := ReadEntry(sum, z, pos);
      if entry.None? then None
      else
        var rest := ReadCentral(sum, z, entry.value.1, n - 1, limit);
        if rest.None? then None else Some([entry.value.0] + rest.value)
  }

  function Read(sum: Sum, z: seq<Byte>): Option<seq<File>> {
    if |z| < 22 || !At(z, |z| - 22, END_SIGNATURE) || NumberAt(z, |z| - 2, 2) != 0 then None
    else
      var end := |z| - 22;
      var size, offset := NumberAt(z, end + 12, 4), NumberAt(z, end + 16, 4);
      if NumberAt(z, end + 8, 2) != NumberAt(z, end + 10, 2) || offset + size != end then None
      else ReadCentral(sum, z, offset, NumberAt(z, end + 10, 2), end)
  }

  // ---- Round trip ----

  lemma Split(z: seq<Byte>, pos: nat, a: seq<Byte>, b: seq<Byte>)
    requires At(z, pos, a + b)
    ensures At(z, pos, a) && At(z, pos + |a|, b)
  {
    assert z[pos..pos + |a + b|][..|a|] == a;
    assert z[pos..pos + |a + b|][|a|..] == b;
  }

  lemma Numbers16(z: seq<Byte>, pos: nat, n: nat)
    requires At(z, pos, U16(n))
    ensures pos + 2 <= |z| && NumberAt(z, pos, 2) == n % 0x1_0000
  {
    CutOff16(n);
    assert Pow256(2) == 0x1_0000;
    NumberOfLittleEndian(n % 0x1_0000, 2);
  }

  lemma Numbers32(z: seq<Byte>, pos: nat, n: nat)
    requires At(z, pos, U32(n)) && n < 0x1_0000_0000
    ensures pos + 4 <= |z| && NumberAt(z, pos, 4) == n
  {
    assert Pow256(4) == 0x1_0000_0000;
    NumberOfLittleEndian(n, 4);
  }

  lemma FactsRead(z: seq<Byte>, pos: nat, crc: nat, size: nat, nameLength: nat)
    requires At(z, pos, Facts(crc, size, nameLength))
    requires crc < 0x1_0000_0000 && size < 0x1_0000_0000 && nameLength <= 0xffff
    ensures pos + 14 <= |z|
    ensures NumberAt(z, pos, 4) == crc
    ensures NumberAt(z, pos + 4, 4) == NumberAt(z, pos + 8, 4) == size
    ensures NumberAt(z, pos + 12, 2) == nameLength
  {
    var c, s := U32(crc), U32(size);
    Split(z, pos, c + s + s, U16(nameLength));
    Split(z, pos, c + s, s);
    Split(z, pos, c, s);
    Numbers32(z, pos, crc);
    Numbers32(z, pos + 4, size);
    Numbers32(z, pos + 8, size);
    Numbers16(z, pos + 12, nameLength);
  }

  lemma LocalFields(z: seq<Byte>, pos: nat, crc: nat, size: nat, nameLength: nat)
    requires At(z, pos, LocalHeader(crc, size, nameLength))
    requires crc < 0x1_0000_0000 && size < 0x1_0000_0000 && nameLength <= 0xffff
    ensures pos + 30 <= |z| && At(z, pos, LOCAL_SIGNATURE)
    ensures NumberAt(z, pos + 8, 2) == NumberAt(z, pos + 28, 2) == 0
    ensures NumberAt(z, pos + 14, 4) == crc && NumberAt(z, pos + 26, 2) == nameLength
    ensures NumberAt(z, pos + 18, 4) == NumberAt(z, pos + 22, 4) == size
  {
    var front := LOCAL_SIGNATURE + U16(20) + U16(0);
    Split(z, pos, front + U16(0) + U16(0) + U16(0) + Facts(crc, size, nameLength), U16(0));
    Split(z, pos, front + U16(0) + U16(0) + U16(0), Facts(crc, size, nameLength));
    Split(z, pos, front + U16(0) + U16(0), U16(0));
    Split(z, pos, front + U16(0), U16(0));
    Split(z, pos, front, U16(0));
    Split(z, pos, LOCAL_SIGNATURE + U16(20), U16(0));
    Split(z, pos, LOCAL_SIGNATURE, U16(20));
    Numbers16(z, pos + 8, 0);
    Numbers16(z, pos + 28, 0);
    FactsRead(z, pos + 14, crc, size, nameLength);
  }

  lemma LocalRead(sum: Sum, z: seq<Byte>, pos: nat, f: File)
    requires sum(f.contents) < 0x1_0000_0000
    requires At(z, pos, LocalRecord(sum, f)) && |f.name| <= 0xffff && |f.contents| < 0x1_0000_0000
    ensures ReadLocal(sum, z, pos, f.name, sum(f.contents), |f.contents|) == Some(f)
  {
    var header := LocalHeader(sum(f.contents), |f.contents|, |f.name|);
    Split(z, pos, header + f.name, f.contents);
    Split(z, pos, header, f.name);
    LocalFields(z, pos, sum(f.contents), |f.contents|, |f.name|);
  }

  lemma CentralFields(z: seq<Byte>, pos: nat, crc: nat, size: nat, nameLength: nat, offset: nat)
    requires At(z, pos, CentralHeader(crc, size, nameLength, offset))
    requires crc < 0x1_0000_0000 && size < 0x1_0000_0000 && nameLength <= 0xffff && offset < 0x1_0000_0000
    ensures pos + 46 <= |z| && At(z, pos, CENTRAL_SIGNATURE)
    ensures NumberAt(z, pos + 16, 4) == crc && NumberAt(z, pos + 28, 2) == nameLength
    ensures NumberAt(z, pos + 20, 4) == NumberAt(z, pos + 24, 4) == size
    ensures NumberAt(z, pos + 10, 2) == NumberAt(z, pos + 30, 2) == NumberAt(z, pos + 32, 2) == 0
    ensures NumberAt(z, pos + 42, 4) == offset
  {
    var front := CENTRAL_SIGNATURE + U16(20) + U16(20) + U16(0);
    var middle := front + U16(0) + U16(0) + U16(0) + Facts(crc, size, nameLength);
    Split(z, pos, middle + U16(0) + U16(0) + U16(0) + U16(0) + U32(0), U32(offset));
    Split(z, pos, middle + U16(0) + U16(0) + U16(0) + U16(0), U32(0));
    Split(z, pos, middle + U16(0) + U16(0) + U16(0), U16(0));
    Split(z, pos, middle + U16(0) + U16(0), U16(0));
    Split(z, pos, middle + U16(0), U16(0));
    Split(z, pos, middle, U16(0));
    Split(z, pos, front + U16(0) + U16(0) + U16(0), Facts(crc, size, nameLength));
    Split(z, pos, front + U16(0) + U16(0), U16(0));
    Split(z, pos, front + U16(0), U16(0));
    Split(z, pos, front, U16(0));
    Split(z, pos, CENTRAL_SIGNATURE + U16(20) + U16(20), U16(0));
    Split(z, pos, CENTRAL_SIGNATURE + U16(20), U16(20));
    Split(z, pos, CENTRAL_SIGNATURE, U16(20));
    Numbers16(z, pos + 10, 0);
    Numbers16(z, pos + 30, 0);
    Numbers16(z, pos + 32, 0);
    Numbers32(z, pos + 42, offset);
    FactsRead(z, pos + 16, crc, size, nameLength);
  }

  lemma EntryRead(sum: Sum, z: seq<Byte>, pos: nat, f: File, offset: nat)
    requires sum(f.contents) < 0x1_0000_0000
    requires At(z, pos, CentralRecord(sum, f, offset)) && At(z, offset, LocalRecord(sum, f))
    requires |f.name| <= 0xffff && |f.contents| < 0x1_0000_0000 && offset < 0x1_0000_0000
    ensures ReadEntry(sum, z, pos) == Some((f, pos + |CentralRecord(sum, f, offset)|))
  {
    hide ReadLocal, Facts, LocalRecord, LocalHeader, CentralHeader, LittleEndian, Number;
    Split(z, pos, CentralHeader(sum(f.contents), |f.contents|, |f.name|, offset), f.name);
    CentralFields(z, pos, sum(f.contents), |f.contents|, |f.name|, offset);
    LocalRead(sum, z, offset, f);
  }

  /** Local records, directory and end record stand one after another. */
  lemma Placed(locals: seq<Byte>, centrals: seq<Byte>, end: seq<Byte>, p: nat, record: seq<Byte>, q: nat,
        entry: seq<Byte>)
    requires At(locals, p, record) && At(centrals, q, entry)
    ensures At(locals + centrals + end, p, record)
    ensures At(locals + centrals + end, |locals| + q, entry)
  {
    var z := locals + centrals + end;
    assert z[p..p + |record|] == locals[p..p + |record|];
    assert z[|locals| + q..|locals| + q + |entry|] == centrals[q..q + |entry|];
  }

  /** The limits of the format: 16-bit name lengths and entry count, 32-bit sizes and offsets. */
  predicate Fits(sum: Sum, files: seq<File>) {
    && |files| <= 0xffff
    && |Locals(sum, files)| < 0x1_0000_0000
    && |Centrals(sum, files)| < 0x1_0000_0000
    && forall i :: 0 <= i < |files| ==> |files[i].name| <= 0xffff
  }

  /** Both records of a file stand in the archive where the directory says: in particular,
      every central offset points at the file's own local record. */
  lemma RecordsHold(sum: Sum, files: seq<File>, i: nat)
    requires i < |files|
    ensures At(Archive(sum, files), |Locals(sum, files[..i])|, LocalRecord(sum, files[i]))
    ensures At(Archive(sum, files), |Locals(sum, files)| + |Centrals(sum, files[..i])|,
        CentralRecord(sum, files[i], |Locals(sum, files[..i])|))
    ensures |Locals(sum, files[..i])| + |files[i].contents| <= |Locals(sum, files)|
    ensures |Centrals(sum, files[..i + 1])|
        == |Centrals(sum, files[..i])| + |CentralRecord(sum, files[i], |Locals(sum, files[..i])|)|
  {
    hide CentralRecord, LocalHeader, EndRecord;
    OneMoreFile(sum, files, i);
    PrefixHolds(sum, files, i + 1);
    var p, record := |Locals(sum, files[..i])|, LocalRecord(sum, files[i]);
    var q, entry := |Centrals(sum, files[..i])|, CentralRecord(sum, files[i], p);
    Placed(Locals(sum, files), Centrals(sum, files), EndRecord(|files|, |Centrals(sum, files)|, |Locals(sum, files)|),
        p, record, q, entry);
  }

  /** What is written is never moved. */
  lemma {:induction false} PrefixHolds(sum: Sum, files: seq<File>, i: nat)
    requires i <= |files|
    ensures Locals(sum, files[..i]) <= Locals(sum, files) && Centrals(sum, files[..i]) <= Centrals(sum, files)
    decreases |files| - i
  {
    if i == |files| {
      assert files[..i] == files;
    } else {
      OneMoreFile(sum, files, i);
      PrefixHolds(sum, files, i + 1);
    }
  }

  lemma EndRead(z: seq<Byte>, pos: nat, n: nat, size: nat, offset: nat)
    requires At(z, pos, EndRecord(n, size, offset)) && |z| == pos + 22
    requires size < 0x1_0000_0000 && offset < 0x1_0000_0000
    ensures At(z, pos, END_SIGNATURE) && NumberAt(z, pos + 20, 2) == 0
    ensures NumberAt(z, pos + 8, 2) == NumberAt(z, pos + 10, 2) == n % 0x1_0000
    ensures NumberAt(z, pos + 12, 4) == size && NumberAt(z, pos + 16, 4) == offset
  {
    var front := END_SIGNATURE + U16(0) + U16(0);
    Split(z, pos, front + U16(n) + U16(n) + U32(size) + U32(offset), U16(0));
    Split(z, pos, front + U16(n) + U16(n) + U32(size), U32(offset));
    Split(z, pos, front + U16(n) + U16(n), U32(size));
    Split(z, pos, front + U16(n), U16(n));
    Split(z, pos, front, U16(n));
    Split(z, pos, END_SIGNATURE + U16(0), U16(0));
    Split(z, pos, END_SIGNATURE, U16(0));
    Numbers16(z, pos + 8, n);
    Numbers16(z, pos + 10, n);
    Numbers32(z, pos + 12, size);
    Numbers32(z, pos + 16, offset);
    Numbers16(z, pos + 20, 0);
  }

  /** Where each record stands, for a reader that sees only the bytes. */
  ghost predicate Laid(sum: Sum, files: seq<File>, z: seq<Byte>, offsets: seq<nat>, starts: seq<nat>) {
    && |offsets| == |files| && |starts| == |files| + 1
    && forall i :: 0 <= i < |files| ==>
         && |files[i].name| <= 0xffff && offsets[i] + |files[i].contents| < 0x1_0000_0000
         && At(z, offsets[i], LocalRecord(sum, files[i]))
         && At(z, starts[i], CentralRecord(sum, files[i], offsets[i]))
         && starts[i + 1] == starts[i] + |CentralRecord(sum, files[i], offsets[i])|
  }

  lemma {:induction false} DirectoryRead(sum: Sum, files: seq<File>, z: seq<Byte>, offsets: seq<nat>,
        starts: seq<nat>, i: nat)
    requires Laid(sum, files, z, offsets, starts) && i <= |files|
    requires forall k :: 0 <= k < |files| ==> sum(files[k].contents) < 0x1_0000_0000
    ensures ReadCentral(sum, z, starts[i], |files| - i, starts[|files|]) == Some(files[i..])
    decreases |files| - i
  {
    hide ReadEntry, LocalRecord, CentralRecord;
    if i == |files| {
      assert files[i..] == [];
    } else {
      DirectoryRead(sum, files, z, offsets, starts, i + 1);
      EntryRead(sum, z, starts[i], files[i], offsets[i]);
      NextEntry(sum, z, starts[i], |files| - i, starts[|files|], files[i], starts[i + 1], files[i + 1..]);
      assert files[i..] == [files[i]] + files[i + 1..];
    }
  }

  lemma NextEntry(sum: Sum, z: seq<Byte>, pos: nat, n: nat, limit: nat, f: File, next: nat, rest: seq<File>)
    requires n > 0 && ReadEntry(sum, z, pos) == Some((f, next))
    requires ReadCentral(sum, z, next, n - 1, limit) == Some(rest)
    ensures ReadCentral(sum, z, pos, n, limit) == Some([f] + rest)
  {
  }

  lemma ArchiveLaid(sum: Sum, files: seq<File>) returns (offsets: seq<nat>, starts: seq<nat>)
    requires Fits(sum, files)
    ensures Laid(sum, files, Archive(sum, files), offsets, starts)
    ensures starts[0] == |Locals(sum, files)| && starts[|files|] == |Locals(sum, files)| + |Centrals(sum, files)|
  {
    hide Archive, LocalRecord, CentralRecord;
    offsets := seq(|files|, i requires 0 <= i < |files| => |Locals(sum, files[..i])|);
    starts := seq(|files| + 1, i requires 0 <= i <= |files| => |Locals(sum, files)| + |Centrals(sum, files[..i])|);
    forall i | 0 <= i < |files|
      ensures offsets[i] + |files[i].contents| < 0x1_0000_0000
      ensures At(Archive(sum, files), offsets[i], LocalRecord(sum, files[i]))
      ensures At(Archive(sum, files), starts[i], CentralRecord(sum, files[i], offsets[i]))
      ensures starts[i + 1] == starts[i] + |CentralRecord(sum, files[i], offsets[i])|
    {
      RecordsHold(sum, files, i);
    }
    assert files[..0] == [] && files[..|files|] == files;
  }

  /** The end record of the archive, as the reader sees it. */
  lemma ArchiveEnd(sum: Sum, files: seq<File>)
    requires |Locals(sum, files)| < 0x1_0000_0000 && |Centrals(sum, files)| < 0x1_0000_0000
    ensures Read(sum, Archive(sum, files))
         == ReadCentral(sum, Archive(sum, files), |Locals(sum, files)|, |files| % 0x1_0000,
                        |Locals(sum, files)| + |Centrals(sum, files)|)
  {
    hide ReadCentral, Locals, Centrals, LittleEndian, END_SIGNATURE;
    var z, locals, centrals := Archive(sum, files), Locals(sum, files), Centrals(sum, files);
    var end := |locals| + |centrals|;
    assert At(z, end, EndRecord(|files|, |centrals|, |locals|));
    EndRead(z, end, |files|, |centrals|, |locals|);
  }

  /** The entry count wraps at 16 bits: while sizes and offsets fit, reading an archive recovers
      exactly the files written if and only if there are at most 65535 of them. */
  lemma RoundTrip(sum: Sum, files: seq<File>)
    requires |Locals(sum, files)| < 0x1_0000_0000 && |Centrals(sum, files)| < 0x1_0000_0000
    requires forall i :: 0 <= i < |files| ==> |files[i].name| <= 0xffff && sum(files[i].contents) < 0x1_0000_0000
    ensures Read(sum, Archive(sum, files)) == Some(files) <==> |files| <= 0xffff
  {
    hide Read, ReadEntry, Archive;
    ArchiveEnd(sum, files);
    if |files| <= 0xffff {
      var offsets, starts := ArchiveLaid(sum, files);
      DirectoryRead(sum, files, Archive(sum, files), offsets, starts, 0);
      assert files[0..] == files;
    }
  }

  /** What the writer produces within the limits, an end-first reader takes apart again. */
  method WriteThenRead(files: seq<File>) returns (z: seq<Byte>)
    requires Fits(Crc.Checksum, files)
    ensures Read(Crc.Checksum, z) == Some(files)
  {
    var r := GenerateDiagnosticZip(files);
    z := r.value;
    forall i | 0 <= i < |files|
      ensures Crc.Checksum(files[i].contents) < 0x1_0000_0000
    {
      ChecksumFits(files[i].contents);
    }
    RoundTrip(Crc.Checksum, files);
  }

  lemma ChecksumFits(data: seq<Byte>)
    ensures Crc.Checksum(data) < 0x1_0000_0000
  {
    assert Pow2(8) == 256;
    assert Pow2(16) == 0x1_0000;
    assert Pow2(24) == 0x100_0000;
    assert Pow2(32) == 0x1_0000_0000;
  }
}
