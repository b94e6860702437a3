/** The CRC-32 of the diagnostic archive writer: a reflected shift register with
    polynomial 0xedb88320, all ones at the start and complemented at the end.
    A 32-bit word is the list of its bits, lowest first. */
module Crc {
  import opened Bytes
  import ShiftRegister

  type Word = w: seq<bool> | |w| == 32 witness seq(32, i => false)

  const POLYNOMIAL: Word := ToBits(0xedb8_8320, 32)
  const ALL_ONES: Word := Ones(32)

  function Zeros(n: nat): (s: seq<bool>)
    ensures |s| == n && forall i :: 0 <= i < n ==> !s[i]
  {
    seq(n, i => false)
  }

  function Ones(n: nat): (s: seq<bool>)
    ensures |s| == n
  {
    seq(n, i => true)
  }

  function Xor(a: Word, b: Word): (r: Word)
    ensures forall i :: 0 <= i < 32 ==> r[i] == (a[i] != b[i])
  {
    seq(32, i requires 0 <= i < 32 => a[i] != b[i])
  }

  function Not(a: Word): (r: Word)
    ensures forall i :: 0 <= i < 32 ==> r[i] == !a[i]
  {
    seq(32, i requires 0 <= i < 32 => !a[i])
  }

  /** `a >> n` */
  function Right(a: Word, n: nat): Word
    requires n <= 32
  {
    a[n..] + Zeros(n)
  }

  function FromByte(b: Byte): Word {
    ToBits(b, 8) + Zeros(24)
  }

  function BitStep(c: Word): Word {
    if c[0] then Xor(Right(c, 1), POLYNOMIAL) else Right(c, 1)
  }

  /** `a << 8` */
  function Up(a: Word): Word {
    Zeros(8) + a[..24]
  }

  predicate Small(a: Word) {
    a[24..] == Zeros(8)
  }

  const MACHINE: ShiftRegister.Machine<Word> := ShiftRegister.Machine(BitStep, Xor, Up, Small)

  function Widen(data: seq<Byte>): (w: seq<Word>)
    ensures |w| == |data| && forall i :: 0 <= i < |w| ==> w[i] == FromByte(data[i])
  {
    seq(|data|, i requires 0 <= i < |data| => FromByte(data[i]))
  }

  function Checksum(data: seq<Byte>): nat {
    FromBits(Not(ShiftRegister.Register(MACHINE, Widen(data), ALL_ONES)))
  }

  /** The loop of the source: every byte is xored in and shifted out bit by bit. */
  method Crc32(data: seq<Byte>) returns (crc: Word)
    ensures FromBits(crc) == Checksum(data)
  {
    crc := ALL_ONES;
    ghost var wide := Widen(data);
    assert wide[0..] == wide;
    for i := 0 to |data|
      invariant ShiftRegister.Register(MACHINE, wide[i..], crc) == ShiftRegister.Register(MACHINE, wide, ALL_ONES)
    {
      RegisterOneByte(wide, i, crc);
      crc := Xor(crc, FromByte(data[i]));
      ghost var target := EightSteps(crc);
      for k := 0 to 8
        invariant Steps(crc, 8 - k) == target
      {
        OneStep(crc, 8 - k);
        crc := BitStep(crc);
      }
    }
    crc := Not(crc);
  }

  function Steps(c: Word, n: nat): Word {
    ShiftRegister.Iterate(BitStep, c, n)
  }

  function EightSteps(c: Word): Word {
    Steps(c, 8)
  }

  lemma OneStep(c: Word, n: nat)
    requires n > 0
    ensures Steps(c, n) == Steps(BitStep(c), n - 1)
  {
  }

  lemma RegisterOneByte(wide: seq<Word>, i: nat, c: Word)
    requires i < |wide|
    ensures ShiftRegister.Register(MACHINE, wide[i..], c)
        == ShiftRegister.Register(MACHINE, wide[i + 1..], EightSteps(Xor(c, wide[i])))
  {
    assert wide[i..][1..] == wide[i + 1..];
  }

  // ---- The laws of the machine ----

  lemma PolynomialTop()
    ensures POLYNOMIAL[31]
  {
    NibbleDown(0xedb8_8320, 27);
    NibbleDown(0xedb8_832, 23);
    NibbleDown(0xedb8_83, 19);
    NibbleDown(0xedb8_8, 15);
    NibbleDown(0xedb8, 11);
    NibbleDown(0xedb, 7);
    NibbleDown(0xed, 3);
    assert Bit(0xe, 3) == Bit(7, 2) == Bit(3, 1) == Bit(1, 0);
  }

  lemma NibbleDown(n: nat, i: nat)
    ensures Bit(n, i + 4) == Bit(n / 16, i)
  {
    assert Bit(n, i + 4) == Bit(n / 2, i + 3) == Bit(n / 2 / 2, i + 2);
    assert Bit(n / 2 / 2, i + 2) == Bit(n / 2 / 2 / 2, i + 1) == Bit(n / 2 / 2 / 2 / 2, i);
  }

  lemma BitStepAt(c: Word, i: nat)
    requires i < 32
    ensures BitStep(c)[i] == ((i < 31 && c[i + 1]) != (c[0] && POLYNOMIAL[i]))
  {
  }

  /** The polynomial's top bit reveals the bit that was shifted out, and so the whole register. */
  function UnBitStep(s: Word): Word {
    [s[31]] + seq(31, i requires 0 <= i < 31 => s[i] != (s[31] && POLYNOMIAL[i]))
  }

  lemma BitStepInverse(c: Word)
    ensures UnBitStep(BitStep(c)) == c
  {
    PolynomialTop();
    var s := BitStep(c);
    BitStepAt(c, 31);
    forall i | 0 < i < 32
      ensures UnBitStep(s)[i] == c[i]
    {
      BitStepAt(c, i - 1);
    }
    forall i | 0 <= i < 32
      ensures UnBitStep(s)[i] == c[i]
    {
      if i > 0 {
        var k := i - 1;
        assert UnBitStep(s)[k + 1] == c[k + 1];
      }
    }
  }

  lemma BitStepLinear(c: Word, d: Word)
    ensures BitStep(Xor(c, d)) == Xor(BitStep(c), BitStep(d))
  {
    forall i | 0 <= i < 32
      ensures BitStep(Xor(c, d))[i] == Xor(BitStep(c), BitStep(d))[i]
    {
      BitStepAt(c, i);
      BitStepAt(d, i);
      BitStepAt(Xor(c, d), i);
    }
  }

  lemma XorCancel(a: Word, b: Word, c: Word)
    ensures Xor(c, a) == Xor(c, b) ==> a == b
    ensures Xor(a, c) == Xor(b, c) ==> a == b
  {
    if Xor(c, a) == Xor(c, b) || Xor(a, c) == Xor(b, c) {
      forall i | 0 <= i < 32
        ensures a[i] == b[i]
      {
        assert Xor(c, a)[i] == (c[i] != a[i]) && Xor(c, b)[i] == (c[i] != b[i]);
        assert Xor(a, c)[i] == (a[i] != c[i]) && Xor(b, c)[i] == (b[i] != c[i]);
      }
    }
  }

  /** A value with `n` zero low bits is only shifted down by `n` steps. */
  lemma {:induction false} ZeroBitsShift(h: Word, n: nat)
    requires n <= 32 && h[..n] == Zeros(n)
    ensures ShiftRegister.Iterate(BitStep, h, n) == Right(h, n)
    decreases n
  {
    if n == 0 {
      assert Right(h, 0) == h;
    } else {
      assert !h[..n][0];
      assert BitStep(h) == Right(h, 1);
      assert Right(h, 1)[..n - 1] == h[..n][1..] == Zeros(n - 1);
      ZeroBitsShift(Right(h, 1), n - 1);
      assert Right(Right(h, 1), n - 1) == Right(h, n);
    }
  }

  lemma UpThenShift(y: Word)
    requires Small(y)
    ensures ShiftRegister.Iterate(BitStep, Up(y), 8) == y
  {
    ZeroBitsShift(Up(y), 8);
    assert Right(Up(y), 8) == y[..24] + y[24..] == y;
  }

  lemma MachineIsLawful()
    ensures ShiftRegister.Lawful(MACHINE)
  {
    var m := MACHINE;
    forall a, b
      ensures m.step(a) == m.step(b) ==> a == b
      ensures m.step(m.xor(a, b)) == m.xor(m.step(a), m.step(b))
    {
      BitStepInverse(a);
      BitStepInverse(b);
      BitStepLinear(a, b);
    }
    forall a, b, c
      ensures m.xor(m.xor(a, b), c) == m.xor(a, m.xor(b, c))
      ensures m.xor(c, a) == m.xor(c, b) ==> a == b
      ensures m.xor(a, c) == m.xor(b, c) ==> a == b
    {
      assert Xor(Xor(a, b), c) == Xor(a, Xor(b, c));
      XorCancel(a, b, c);
    }
    forall y | m.small(y)
      ensures ShiftRegister.Iterate(m.step, m.up(y), 8) == y
    {
      UpThenShift(y);
    }
  }

  // ---- The table-driven form of section 8 of RFC 1952 ----

  /** `a & 0xff` */
  function Low(a: Word): Word {
    a[..8] + Zeros(24)
  }

  function TableEntry(n: Word): Word {
    ShiftRegister.Iterate(BitStep, n, 8)
  }

  function TableRegister(data: seq<Byte>, c: Word): Word {
    if data == [] then c
    else TableRegister(data[1..], Xor(TableEntry(Low(Xor(c, FromByte(data[0])))), Right(c, 8)))
  }

  lemma TableStep(c: Word, b: Byte)
    ensures ShiftRegister.Iterate(BitStep, Xor(c, FromByte(b)), 8)
         == Xor(TableEntry(Low(Xor(c, FromByte(b)))), Right(c, 8))
  {
    var x := Xor(c, FromByte(b));
    var high: Word := Zeros(8) + x[8..];
    assert x == Xor(Low(x), high);
    ZeroBitsShift(high, 8);
    assert Right(high, 8) == Right(c, 8);
    MachineIsLawful();
    ShiftRegister.SplitStep(MACHINE, Low(x), high, Right(c, 8));
  }

  /** The bit-by-bit loop computes what the table-driven loop of RFC 1952 computes. */
  lemma {:induction false} TableDriven(data: seq<Byte>, c: Word)
    ensures ShiftRegister.Register(MACHINE, Widen(data), c) == TableRegister(data, c)
  {
    if data != [] {
      TableStep(c, data[0]);
      TableDriven(data[1..], ShiftRegister.Iterate(BitStep, Xor(c, FromByte(data[0])), 8));
      assert Widen(data)[1..] == Widen(data[1..]);
    }
  }

  // ---- Error detection ----

  lemma WordOfBytes(w: seq<Byte>)
    requires |w| == 4
    ensures ShiftRegister.Fits(MACHINE, Widen(w))
    ensures ShiftRegister.Word(MACHINE, Widen(w))
        == ToBits(w[0], 8) + ToBits(w[1], 8) + ToBits(w[2], 8) + ToBits(w[3], 8)
  {
    var two: Word := ToBits(w[2], 8) + ToBits(w[3], 8) + Zeros(16);
    var three: Word := ToBits(w[1], 8) + ToBits(w[2], 8) + ToBits(w[3], 8) + Zeros(8);
    var four: Word := ToBits(w[0], 8) + ToBits(w[1], 8) + ToBits(w[2], 8) + ToBits(w[3], 8);
    assert Xor(FromByte(w[2]), Up(FromByte(w[3]))) == two;
    assert Xor(FromByte(w[1]), Up(two)) == three;
    assert Xor(FromByte(w[0]), Up(three)) == four;
    assert ShiftRegister.UpperTwo(MACHINE, Widen(w)) == two;
    assert ShiftRegister.UpperThree(MACHINE, Widen(w)) == three;
  }

  lemma WordInjective(v: seq<Byte>, w: seq<Byte>)
    requires |v| == |w| == 4 && ShiftRegister.Word(MACHINE, Widen(v)) == ShiftRegister.Word(MACHINE, Widen(w))
    ensures v == w
  {
    WordOfBytes(v);
    WordOfBytes(w);
    EqualChunks(ToBits(v[0], 8), ToBits(v[1], 8), ToBits(v[2], 8), ToBits(v[3], 8),
                ToBits(w[0], 8), ToBits(w[1], 8), ToBits(w[2], 8), ToBits(w[3], 8));
    forall i | 0 <= i < 4
      ensures v[i] == w[i]
    {
      ByteInjective(v[i], w[i]);
    }
  }

  lemma EqualChunks(a: seq<bool>, b: seq<bool>, c: seq<bool>, d: seq<bool>,
                    e: seq<bool>, f: seq<bool>, g: seq<bool>, h: seq<bool>)
    requires |a| == |b| == |c| == |d| == |e| == |f| == |g| == |h| == 8
    requires a + b + c + d == e + f + g + h
    ensures a == e && b == f && c == g && d == h
  {
    assert (a + b + c + d)[..8] == a && (e + f + g + h)[..8] == e;
    assert (a + b + c + d)[8..16] == b && (e + f + g + h)[8..16] == f;
    assert (a + b + c + d)[16..24] == c && (e + f + g + h)[16..24] == g;
    assert (a + b + c + d)[24..] == d && (e + f + g + h)[24..] == h;
  }

  lemma ByteInjective(v: Byte, w: Byte)
    requires ToBits(v, 8) == ToBits(w, 8)
    ensures v == w
  {
    assert Pow2(8) == 256;
    FromToBits(v, 8);
    FromToBits(w, 8);
  }

  lemma WidenParts(a: seq<Byte>, b: seq<Byte>, c: seq<Byte>)
    ensures Widen(a + b + c) == Widen(a) + Widen(b) + Widen(c)
  {
  }

  lemma ChecksumDecides(a: seq<Byte>, b: seq<Byte>)
    requires Checksum(a) == Checksum(b)
    ensures ShiftRegister.Register(MACHINE, Widen(a), ALL_ONES) == ShiftRegister.Register(MACHINE, Widen(b), ALL_ONES)
  {
    var s, t := ShiftRegister.Register(MACHINE, Widen(a), ALL_ONES),
        ShiftRegister.Register(MACHINE, Widen(b), ALL_ONES);
    ToFromBits(Not(s));
    ToFromBits(Not(t));
    assert Not(Not(s)) == s && Not(Not(t)) == t;
  }

  /** Equal checksums stay equal registers when the same bytes follow. */
  lemma PaddedRegisters(a: seq<Byte>, b: seq<Byte>, pad: seq<Byte>)
    requires Checksum(a) == Checksum(b)
    ensures ShiftRegister.Register(MACHINE, Widen(a + pad), ALL_ONES)
         == ShiftRegister.Register(MACHINE, Widen(b + pad), ALL_ONES)
  {
    ChecksumDecides(a, b);
    ShiftRegister.RegisterConcat(MACHINE, Widen(a), Widen(pad), ALL_ONES);
    ShiftRegister.RegisterConcat(MACHINE, Widen(b), Widen(pad), ALL_ONES);
    WidenParts(a, pad, []);
    WidenParts(b, pad, []);
    assert a + pad + [] == a + pad && b + pad + [] == b + pad;
    assert Widen(a) + Widen(pad) + Widen([]) == Widen(a) + Widen(pad);
    assert Widen(b) + Widen(pad) + Widen([]) == Widen(b) + Widen(pad);
  }

  lemma WindowOfFour(before: seq<Byte>, v: seq<Byte>, w: seq<Byte>, after: seq<Byte>)
    requires |v| == |w| == 4
    requires ShiftRegister.Register(MACHINE, Widen(before + v + after), ALL_ONES)
          == ShiftRegister.Register(MACHINE, Widen(before + w + after), ALL_ONES)
    ensures v == w
  {
    WidenParts(before, v, after);
    WidenParts(before, w, after);
    MachineIsLawful();
    WordOfBytes(v);
    WordOfBytes(w);
    ShiftRegister.WindowDecides(MACHINE, Widen(before), Widen(v), Widen(w), Widen(after), ALL_ONES);
    WordInjective(v, w);
  }

  lemma Regrouped(before: seq<Byte>, v: seq<Byte>, after: seq<Byte>, pad: seq<Byte>, n: nat)
    requires n <= |pad|
    ensures n <= |after + pad|
    ensures before + v + after + pad == before + (v + (after + pad)[..n]) + (after + pad)[n..]
  {
    assert after + pad == (after + pad)[..n] + (after + pad)[n..];
  }

  /** A shorter window is filled up with what follows, and with zeros. */
  lemma WindowUpToFour(before: seq<Byte>, v: seq<Byte>, w: seq<Byte>, after: seq<Byte>)
    requires |v| == |w| <= 4
    requires Checksum(before + v + after) == Checksum(before + w + after)
    ensures v == w
  {
    var pad: seq<Byte> := [0, 0, 0, 0];
    var n := 4 - |v|;
    PaddedRegisters(before + v + after, before + w + after, pad);
    Regrouped(before, v, after, pad, n);
    Regrouped(before, w, after, pad, n);
    var fill, rest := (after + pad)[..n], (after + pad)[n..];
    hide *;
    WindowOfFour(before, v + fill, w + fill, rest);
    assert v == (v + fill)[..|v|] && w == (w + fill)[..|w|];
  }

  /** Contents that differ only inside at most four consecutive bytes never share a checksum. */
  lemma DetectsBurst(before: seq<Byte>, v: seq<Byte>, w: seq<Byte>, after: seq<Byte>)
    requires |v| == |w| <= 4 && v != w
    ensures Checksum(before + v + after) != Checksum(before + w + after)
  {
    if Checksum(before + v + after) == Checksum(before + w + after) {
      WindowUpToFour(before, v, w, after);
    }
  }

  /** Contents of one length that differ in exactly one byte never share a checksum. */
  lemma DetectsByte(a: seq<Byte>, b: seq<Byte>, i: nat)
    requires i < |a| == |b| && a[i] != b[i]
    requires forall j :: 0 <= j < |a| && j != i ==> a[j] == b[j]
    ensures Checksum(a) != Checksum(b)
  {
    assert a == a[..i] + [a[i]] + a[i + 1..];
    assert b == a[..i] + [b[i]] + a[i + 1..];
    assert [a[i]][0] != [b[i]][0];
    DetectsBurst(a[..i], [a[i]], [b[i]], a[i + 1..]);
  }
}
