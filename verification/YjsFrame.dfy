/** The length-prefixed framing that may wrap a document update: seven bits per byte, lowest first. */
module YjsFrame {
  import opened Bytes
  import opened Wrappers

  const U64_LIMIT: nat := 0x1_0000_0000_0000_0000
  const LENGTH_BYTES: nat := 10

  function Pow128(k: nat): (p: nat)
    ensures p > 0
  {
    if k == 0 then 1 else 128 * Pow128(k - 1)
  }

  /** What byte number `i` adds at its place: shifted out of 64 bits, only the lowest bit of the tenth remains. */
  function Digit(b: Byte, i: nat): nat {
    if i == LENGTH_BYTES - 1 then b % 2 else b % 128
  }

  datatype Length = Length(value: nat, rest: seq<Byte>)

  /** Reads on from byte number `i`; after ten bytes the length is what it is. */
  function DecodeFrom(bytes: seq<Byte>, i: nat): Option<Length>
    requires i <= LENGTH_BYTES
    decreases LENGTH_BYTES - i
  {
    if i == LENGTH_BYTES then Some(Length(0, bytes))
    else if bytes == [] then None
    else if bytes[0] < 128 then Some(Length(Digit(bytes[0], i), bytes[1..]))
    else
      var more := DecodeFrom(bytes[1..], i + 1);
      if more.None? then None else Some(Length(Digit(bytes[0], i) + 128 * more.value.value, more.value.rest))
  }

  /** The result when `length` has been read from the first `i` bytes. */
  function Onward(length: nat, i: nat, more: Option<Length>): Option<Length> {
    if more.None? then None else Some(Length(length + Pow128(i) * more.value.value, more.value.rest))
  }

  lemma OneDigit(length: nat, i: nat, d: nat, v: nat)
    ensures length + Pow128(i) * (d + 128 * v) == length + Pow128(i) * d + Pow128(i + 1) * v
    ensures length + Pow128(i) * d == length + d * Pow128(i)
  {
    calc {
      Pow128(i) * (d + 128 * v);
      Pow128(i) * d + Pow128(i) * (128 * v);
      Pow128(i) * d + (128 * Pow128(i)) * v;
    }
  }

  /** Byte number `i` joins the length; its bits do not overlap those already read. */
  function Placed(length: nat, b: Byte, i: nat): nat {
    length + Digit(b, i) * Pow128(i)
  }

  method DecodeLength(raw: seq<Byte>) returns (r: Option<Length>)
    ensures r == DecodeFrom(raw, 0)
  {
    var rest := raw;
    var length: nat := 0;
    assert DecodeFrom(raw, 0) == Onward(0, 0, DecodeFrom(raw, 0));
    hide DecodeFrom, Onward, Digit, Pow128, Placed;
    for i := 0 to LENGTH_BYTES
      invariant DecodeFrom(raw, 0) == Onward(length, i, DecodeFrom(rest, i))
    {
      if rest == [] {
        CutShort(length, i);
        return None;
      }
      var byte := rest[0];
      OnwardStep(length, i, rest);
      rest := rest[1..];
      length := Placed(length, byte, i);
      if byte < 128 {
        return Some(Length(length, rest));
      }
    }
    OnwardDone(length, rest);
    return Some(Length(length, rest));
  }

  lemma CutShort(length: nat, i: nat)
    requires i < LENGTH_BYTES
    ensures Onward(length, i, DecodeFrom([], i)).None?
  {
  }

  lemma OnwardDone(length: nat, rest: seq<Byte>)
    ensures Onward(length, LENGTH_BYTES, DecodeFrom(rest, LENGTH_BYTES)) == Some(Length(length, rest))
  {
    hide Pow128;
  }

  lemma OnwardStep(length: nat, i: nat, rest: seq<Byte>)
    requires i < LENGTH_BYTES && rest != []
    ensures var more := Placed(length, rest[0], i);
            Onward(length, i, DecodeFrom(rest, i))
            == if rest[0] < 128 then Some(Length(more, rest[1..]))
                else Onward(more, i + 1, DecodeFrom(rest[1..], i + 1))
  {
    var later := DecodeFrom(rest[1..], i + 1);
    OneDigit(length, i, Digit(rest[0], i), if later.Some? then later.value.value else 0);
    hide Pow128;
  }

  // ---- The sender's side ----

  function Encode(n: nat): seq<Byte> {
    if n < 128 then [n] else [128 + n % 128] + Encode(n / 128)
  }

  /** One more than the greatest number bytes `i` to 9 can hold. */
  function Limit(i: nat): (l: nat)
    requires i < LENGTH_BYTES
    ensures l > 0
    decreases LENGTH_BYTES - i
  {
    if i == LENGTH_BYTES - 1 then 2 else 128 * Limit(i + 1)
  }

  lemma LimitIs64Bits()
    ensures Limit(0) == U64_LIMIT
  {
    assert Limit(8) == 0x100 && Limit(7) == 0x8000 && Limit(6) == 0x40_0000 && Limit(5) == 0x2000_0000;
    assert Limit(4) == 128 * Limit(5) && Limit(3) == 128 * Limit(4) && Limit(2) == 128 * Limit(3)
        && Limit(1) == 128 * Limit(2);
  }

  lemma {:induction false} EncodedFrom(n: nat, i: nat, tail: seq<Byte>)
    requires i < LENGTH_BYTES && n < Limit(i)
    ensures DecodeFrom(Encode(n) + tail, i) == Some(Length(n, tail))
    decreases LENGTH_BYTES - i
  {
    EncodeStep(n, tail);
    LimitStep(n, i);
    var bytes := Encode(n) + tail;
    hide Encode, Limit, DecodeFrom;
    if n < 128 {
      LastByte(bytes, i, n, tail);
    } else {
      EncodedFrom(n / 128, i + 1, tail);
      OneByte(bytes, i, n % 128, n / 128, tail);
    }
  }

  lemma LastByte(bytes: seq<Byte>, i: nat, n: nat, tail: seq<Byte>)
    requires i < LENGTH_BYTES && n < 128 && (i == LENGTH_BYTES - 1 ==> n < 2)
    requires bytes != [] && bytes[0] == n && bytes[1..] == tail
    ensures DecodeFrom(bytes, i) == Some(Length(n, tail))
  {
  }

  lemma OneByte(bytes: seq<Byte>, i: nat, low: nat, high: nat, tail: seq<Byte>)
    requires i < LENGTH_BYTES - 1 && low < 128 && bytes != [] && bytes[0] == 128 + low
    requires DecodeFrom(bytes[1..], i + 1) == Some(Length(high, tail))
    ensures DecodeFrom(bytes, i) == Some(Length(low + 128 * high, tail))
  {
  }

  lemma EncodeStep(n: nat, tail: seq<Byte>)
    ensures var bytes := Encode(n) + tail;
            && |bytes| > 0
            && (if n < 128 then bytes[0] == n && bytes[1..] == tail
                else bytes[0] == 128 + n % 128 && bytes[1..] == Encode(n / 128) + tail)
  {
  }

  lemma LimitStep(n: nat, i: nat)
    requires i < LENGTH_BYTES && n < Limit(i)
    ensures i == LENGTH_BYTES - 1 ==> n < 2
    ensures i < LENGTH_BYTES - 1 ==> n / 128 < Limit(i + 1)
  {
  }

  /** The update behind an optional frame: bytes that do not decode directly may be 0, then 1 or 2, then a
      length and that many bytes. */
  function Update<T>(decode: seq<Byte> -> Option<T>, raw: seq<Byte>): Option<T> {
    if decode(raw).Some? then decode(raw)
    else if |raw| > 2 && raw[0] == 0 && (raw[1] == 1 || raw[1] == 2) then
      var length := DecodeFrom(raw[2..], 0);
      if length.None? || length.value.value > |length.value.rest| then None
      else decode(length.value.rest[..length.value.value])
    else None
  }

  /** Every framed update of any 64-bit length is read back, whatever follows it, unless the frame itself happens
      to decode as an update. */
  lemma FramedUpdate<T>(decode: seq<Byte> -> Option<T>, kind: Byte, payload: seq<Byte>, tail: seq<Byte>)
    requires (kind == 1 || kind == 2) && |payload| < U64_LIMIT
    ensures var raw := [0, kind] + (Encode(|payload|) + (payload + tail));
            decode(raw).None? ==> Update(decode, raw) == decode(payload)
  {
    var raw := [0, kind] + (Encode(|payload|) + (payload + tail));
    LimitIs64Bits();
    hide Limit;
    EncodedFrom(|payload|, 0, payload + tail);
    hide DecodeFrom, Encode;
    assert raw[2..] == Encode(|payload|) + (payload + tail);
    assert (payload + tail)[..|payload|] == payload;
    EncodeNotEmpty(|payload|);
  }

  lemma EncodeNotEmpty(n: nat)
    ensures |Encode(n)| > 0
  {
  }

  /** A length cut off before its last byte is refused. */
  lemma {:induction false} CutOff(n: nat, i: nat, k: nat)
    requires i < LENGTH_BYTES && n < Limit(i) && k < |Encode(n)|
    ensures DecodeFrom(Encode(n)[..k], i).None?
    decreases LENGTH_BYTES - i
  {
    if k > 0 {
      CutOff(n / 128, i + 1, k - 1);
      assert Encode(n)[..k][1..] == Encode(n / 128)[..k - 1];
    }
  }

  // ---- Any bytes ----

  /** The lowest seven bits of each byte as one number. */
  function Septets(bytes: seq<Byte>): nat {
    if bytes == [] then 0 else bytes[0] % 128 + 128 * Septets(bytes[1..])
  }

  lemma ModStep(d: nat, v: nat, l: nat)
    requires d < 128 && l > 0
    ensures (d + 128 * v) % (128 * l) == d + 128 * (v % l)
  {
    var (q, r) := (v / l, v % l);
    assert v == q * l + r;
    assert d + 128 * v == q * (128 * l) + (d + 128 * r) by {
      assert 128 * (q * l) == q * (128 * l);
    }
    assert d + 128 * r < 128 * l;
    Remainder(q, 128 * l, d + 128 * r);
  }

  lemma {:induction false} LengthFrom(bytes: seq<Byte>, i: nat, k: nat)
    requires i <= k < LENGTH_BYTES && k - i < |bytes|
    requires (forall j :: 0 <= j < k - i ==> bytes[j] >= 128) && (bytes[k - i] < 128 || k == LENGTH_BYTES - 1)
    ensures DecodeFrom(bytes, i) == Some(Length(Septets(bytes[..k - i + 1]) % Limit(i), bytes[k - i + 1..]))
    decreases k - i
  {
    hide DecodeFrom, Limit, Septets;
    if i == k {
      LastSeptet(bytes, i);
    } else {
      var rest := bytes[1..];
      LengthFrom(rest, i + 1, k);
      assert rest[k - i..] == bytes[k - i + 1..];
      SeptetsMore(bytes[..k - i + 1]);
      assert bytes[..k - i + 1][1..] == rest[..k - i];
      FurtherByte(bytes, i, Septets(rest[..k - i]), bytes[k - i + 1..]);
    }
  }

  lemma SeptetsMore(bytes: seq<Byte>)
    requires bytes != []
    ensures Septets(bytes) == bytes[0] % 128 + 128 * Septets(bytes[1..])
  {
  }

  lemma FurtherByte(bytes: seq<Byte>, i: nat, v: nat, tail: seq<Byte>)
    requires i < LENGTH_BYTES - 1 && bytes != [] && bytes[0] >= 128
    requires DecodeFrom(bytes[1..], i + 1) == Some(Length(v % Limit(i + 1), tail))
    ensures DecodeFrom(bytes, i) == Some(Length((bytes[0] % 128 + 128 * v) % Limit(i), tail))
  {
    assert DecodeFrom(bytes, i) == Some(Length(bytes[0] % 128 + 128 * (v % Limit(i + 1)), tail));
    assert Limit(i) == 128 * Limit(i + 1);
    hide DecodeFrom, Limit;
    ModStep(bytes[0] % 128, v, Limit(i + 1));
  }

  lemma LastSeptet(bytes: seq<Byte>, i: nat)
    requires i < LENGTH_BYTES && bytes != [] && (bytes[0] < 128 || i == LENGTH_BYTES - 1)
    ensures DecodeFrom(bytes, i) == Some(Length(Septets(bytes[..1]) % Limit(i), bytes[1..]))
  {
    assert bytes[..1][1..] == [] && Septets(bytes[..1]) == bytes[0] % 128;
    LastDigit(bytes[0], i);
    NoMore(bytes[1..]);
    hide Limit, Digit, Septets;
  }

  lemma NoMore(rest: seq<Byte>)
    ensures DecodeFrom(rest, LENGTH_BYTES) == Some(Length(0, rest))
  {
  }

  lemma SmallMod(x: nat, l: nat)
    requires x < l
    ensures x % l == x
  {
    Remainder(0, l, x);
  }

  lemma LastDigit(b: Byte, i: nat)
    requires i < LENGTH_BYTES && (b < 128 || i == LENGTH_BYTES - 1)
    ensures Digit(b, i) == b % 128 % Limit(i)
  {
    if i < LENGTH_BYTES - 1 {
      assert Limit(i) == 128 * Limit(i + 1);
      hide Limit;
      SmallMod(b % 128, Limit(i));
    } else {
      assert Limit(i) == 2;
      hide Limit;
    }
  }

  /** Any bytes: the length ends with the first byte below 128, or with the tenth; it is made of the seven lowest bits
      of each, cut to 64 bits. */
  lemma LengthMeaning(bytes: seq<Byte>, k: nat)
    requires k < 10 && k < |bytes|
    requires (forall j :: 0 <= j < k ==> bytes[j] >= 128) && (bytes[k] < 128 || k == 9)
    ensures DecodeFrom(bytes, 0) == Some(Length(Septets(bytes[..k + 1]) % 0x1_0000_0000_0000_0000, bytes[k + 1..]))
  {
    LimitIs64Bits();
    hide DecodeFrom, Septets, Limit;
    LengthFrom(bytes, 0, k);
  }

  /** Bytes that end before the length does are refused. */
  lemma {:induction false} LengthUnfinished(bytes: seq<Byte>, i: nat)
    requires i + |bytes| < 10 && forall j :: 0 <= j < |bytes| ==> bytes[j] >= 128
    ensures DecodeFrom(bytes, i).None?
    decreases |bytes|
  {
    if bytes != [] {
      LengthUnfinished(bytes[1..], i + 1);
    }
  }

  /** What decodes as it is needs no frame; what does not, and has no frame, or less in it than the frame says, is
      refused. */
  lemma UpdateOtherwise<T>(decode: seq<Byte> -> Option<T>, raw: seq<Byte>, kind: Byte, n: nat, short: seq<Byte>)
    ensures decode(raw).Some? ==> Update(decode, raw) == decode(raw)
    ensures decode(raw).None? && (|raw| <= 2 || raw[0] != 0 || (raw[1] != 1 && raw[1] != 2)) ==>
              Update(decode, raw).None?
    ensures decode(raw).None? && raw == [0, kind] + (Encode(n) + short) && |short| < n < U64_LIMIT ==>
              Update(decode, raw).None?
  {
    if raw == [0, kind] + (Encode(n) + short) && n < U64_LIMIT {
      LimitIs64Bits();
      hide Limit;
      EncodedFrom(n, 0, short);
      hide DecodeFrom, Encode;
      assert raw[2..] == Encode(n) + short;
    }
  }
}
