/** The checksum on 32-bit machine words, as the program computes it, and its check value. */
module CrcCheck {
  import opened Bytes
  import opened Crc
  import ShiftRegister

  function Half(x: bv32): bv32 {
    x >> 1
  }

  function Either(x: bv32, y: bv32): bv32 {
    x ^ y
  }

  predicate BitOf(x: bv32, i: nat)
    decreases i
  {
    if i == 0 then x & 1 == 1 else BitOf(Half(x), i - 1)
  }

  /** The bits of a machine word, lowest first. */
  function Bits(x: bv32): (w: Word)
    ensures forall i :: 0 <= i < 32 ==> w[i] == BitOf(x, i)
  {
    seq(32, i requires 0 <= i < 32 => BitOf(x, i))
  }

  // ---- The operations on words ----

  lemma XorHalf(x: bv32, y: bv32)
    ensures Half(Either(x, y)) == Either(Half(x), Half(y))
  {
  }

  lemma {:induction false} XorBit(x: bv32, y: bv32, i: nat)
    ensures BitOf(Either(x, y), i) == (BitOf(x, i) != BitOf(y, i))
    decreases i
  {
    hide Half, Either;
    if i == 0 {
      XorLow(x, y);
    } else {
      XorHalf(x, y);
      XorBit(Half(x), Half(y), i - 1);
    }
  }

  lemma XorLow(x: bv32, y: bv32)
    ensures BitOf(Either(x, y), 0) == (BitOf(x, 0) != BitOf(y, 0))
  {
    LowBit(x, y);
  }

  lemma LowBit(x: bv32, y: bv32)
    ensures ((x ^ y) & 1 == 1) == ((x & 1 == 1) != (y & 1 == 1))
  {
  }

  lemma XorBits(x: bv32, y: bv32)
    ensures Xor(Bits(x), Bits(y)) == Bits(x ^ y)
  {
    hide BitOf;
    assert Either(x, y) == x ^ y;
    forall i: nat | i < 32
      ensures Bits(x ^ y)[i] == (Bits(x)[i] != Bits(y)[i])
    {
      XorBit(x, y, i);
    }
  }

  lemma FourDown(x: bv32, i: nat)
    ensures BitOf(x, i + 4) == BitOf(x >> 4, i)
  {
    assert BitOf(x, i + 4) == BitOf(x >> 1, i + 3) == BitOf((x >> 1) >> 1, i + 2);
    assert BitOf((x >> 1) >> 1, i + 2) == BitOf(((x >> 1) >> 1) >> 1, i + 1) == BitOf((((x >> 1) >> 1) >> 1) >> 1, i);
    assert (((x >> 1) >> 1) >> 1) >> 1 == x >> 4;
  }

  lemma ShiftTwice(x: bv32)
    ensures (x >> 4) >> 4 == x >> 8 && (x >> 8) >> 8 == x >> 16 && (x >> 16) >> 16 == 0
  {
  }

  lemma SixteenDown(x: bv32, i: nat)
    ensures BitOf(x, i + 16) == BitOf(x >> 16, i)
  {
    hide BitOf;
    EightDown(x, i + 8);
    EightDown(x >> 8, i);
    ShiftTwice(x);
  }

  lemma EightDown(x: bv32, i: nat)
    ensures BitOf(x, i + 8) == BitOf(x >> 8, i)
  {
    hide BitOf;
    FourDown(x, i + 4);
    FourDown(x >> 4, i);
    ShiftTwice(x);
  }

  lemma NoMoreBits(x: bv32)
    ensures !BitOf(x, 32)
  {
    hide BitOf;
    SixteenDown(x, 16);
    SixteenDown(x >> 16, 0);
    ShiftTwice(x);
    ZeroBits(0);
  }

  lemma {:induction false} ZeroBits(i: nat)
    ensures !BitOf(0, i)
  {
    if i > 0 {
      ZeroBits(i - 1);
    }
  }

  lemma RightBits(x: bv32)
    ensures Right(Bits(x), 1) == Bits(x >> 1)
  {
    NoMoreBits(x);
    forall i: nat | i < 32
      ensures Right(Bits(x), 1)[i] == Bits(x >> 1)[i]
    {
      assert BitOf(x, i + 1) == BitOf(x >> 1, i);
    }
  }

  // ---- Constants ----

  /** The number and the word have the same lowest bits. */
  ghost predicate Agree(n: nat, x: bv32, k: nat) {
    forall i: nat :: i < k ==> Bit(n, i) == BitOf(x, i)
  }

  /** Four bits at a time. */
  lemma AgreeMore(n: nat, x: bv32, k: nat)
    requires Agree(n / 16, x >> 4, k)
    requires (n % 2 == 1) == (x & 1 == 1) && (n / 2 % 2 == 1) == ((x >> 1) & 1 == 1)
    requires (n / 4 % 2 == 1) == ((x >> 2) & 1 == 1) && (n / 8 % 2 == 1) == ((x >> 3) & 1 == 1)
    ensures Agree(n, x, k + 4)
  {
    forall i: nat | i < k + 4
      ensures Bit(n, i) == BitOf(x, i)
    {
      if i >= 4 {
        NibbleDown(n, i - 4);
        FourDown(x, i - 4);
        assert Bit(n / 16, i - 4) == BitOf(x >> 4, i - 4);
      } else {
        LowNibble(n, x, i);
      }
    }
  }

  lemma LowNibble(n: nat, x: bv32, i: nat)
    requires i < 4
    requires (n % 2 == 1) == (x & 1 == 1) && (n / 2 % 2 == 1) == ((x >> 1) & 1 == 1)
    requires (n / 4 % 2 == 1) == ((x >> 2) & 1 == 1) && (n / 8 % 2 == 1) == ((x >> 3) & 1 == 1)
    ensures Bit(n, i) == BitOf(x, i)
  {
    assert n / 2 / 2 == n / 4 && n / 4 / 2 == n / 8;
    assert (x >> 1) >> 1 == x >> 2 && (x >> 2) >> 1 == x >> 3;
  }

  lemma PolynomialBits()
    ensures POLYNOMIAL == Bits(0xedb8_8320)
  {
    hide Bit, BitOf;
    AgreeMore(0xe, 0xe, 0);
    AgreeMore(0xed, 0xed, 4);
    AgreeMore(0xedb, 0xedb, 8);
    AgreeMore(0xedb8, 0xedb8, 12);
    AgreeMore(0xedb88, 0xedb88, 16);
    AgreeMore(0xedb883, 0xedb883, 20);
    AgreeMore(0xedb8832, 0xedb8832, 24);
    AgreeMore(0xedb88320, 0xedb88320, 28);
  }

  lemma CheckBits()
    ensures ToBits(0xcbf4_3926, 32) == Bits(0xcbf4_3926)
  {
    hide Bit, BitOf;
    AgreeMore(0xc, 0xc, 0);
    AgreeMore(0xcb, 0xcb, 4);
    AgreeMore(0xcbf, 0xcbf, 8);
    AgreeMore(0xcbf4, 0xcbf4, 12);
    AgreeMore(0xcbf43, 0xcbf43, 16);
    AgreeMore(0xcbf439, 0xcbf439, 20);
    AgreeMore(0xcbf4392, 0xcbf4392, 24);
    AgreeMore(0xcbf43926, 0xcbf43926, 28);
  }

  ghost predicate AllSet(x: bv32, k: nat) {
    forall i: nat :: i < k ==> BitOf(x, i)
  }

  lemma AllSetMore(x: bv32, k: nat)
    requires AllSet(x >> 4, k) && x & 1 == 1 && (x >> 1) & 1 == 1 && (x >> 2) & 1 == 1 && (x >> 3) & 1 == 1
    ensures AllSet(x, k + 4)
  {
    forall i: nat | i < k + 4
      ensures BitOf(x, i)
    {
      if i >= 4 {
        FourDown(x, i - 4);
      } else {
        assert (x >> 1) >> 1 == x >> 2 && (x >> 2) >> 1 == x >> 3;
      }
    }
  }

  lemma AllOnesBits()
    ensures ALL_ONES == Bits(0xffff_ffff)
  {
    hide BitOf;
    AllSetMore(0xf, 0);
    AllSetMore(0xff, 4);
    AllSetMore(0xfff, 8);
    AllSetMore(0xffff, 12);
    AllSetMore(0xfffff, 16);
    AllSetMore(0xffffff, 20);
    AllSetMore(0xfffffff, 24);
    AllSetMore(0xffffffff, 28);
    assert AllSet(0xffff_ffff, 32);
  }

  // ---- The register ----

  lemma StepBits(x: bv32)
    ensures BitStep(Bits(x)) == Bits(Shift(x))
  {
    hide Xor, Right;
    RightBits(x);
    PolynomialBits();
    hide POLYNOMIAL;
    XorBits(x >> 1, 0xedb8_8320);
  }

  lemma NotBits(x: bv32)
    ensures Not(Bits(x)) == Bits(!x)
  {
    hide BitOf;
    AllOnesBits();
    XorBits(x, 0xffff_ffff);
    assert !x == x ^ 0xffff_ffff;
    assert Not(Bits(x)) == Xor(Bits(x), ALL_ONES);
  }

  function Shift(x: bv32): bv32 {
    if x & 1 == 1 then (x >> 1) ^ 0xedb8_8320 else x >> 1
  }

  function Times(x: bv32, n: nat): bv32
    decreases n
  {
    if n == 0 then x else Times(Shift(x), n - 1)
  }

  lemma {:induction false} StepsBits(x: bv32, n: nat)
    ensures ShiftRegister.Iterate(BitStep, Bits(x), n) == Bits(Times(x, n))
    decreases n
  {
    hide BitStep, Shift;
    if n > 0 {
      StepBits(x);
      StepsBits(Shift(x), n - 1);
    }
  }

  /** The program's loop: every byte is xored in and shifted out eight times. */
  function Register(words: seq<bv32>, c: bv32): bv32 {
    if words == [] then c else Register(words[1..], Times(c ^ words[0], 8))
  }

  /** Words that hold the bytes. */
  ghost predicate Holds(words: seq<bv32>, data: seq<Byte>) {
    |words| == |data| && forall i :: 0 <= i < |data| ==> FromByte(data[i]) == Bits(words[i])
  }

  lemma {:induction false} RegisterBits(words: seq<bv32>, data: seq<Byte>, c: bv32)
    requires Holds(words, data)
    ensures ShiftRegister.Register(MACHINE, Widen(data), Bits(c)) == Bits(Register(words, c))
    decreases |data|
  {
    hide FromByte, Bits, Times;
    if data != [] {
      XorBits(c, words[0]);
      StepsBits(c ^ words[0], 8);
      assert Widen(data)[1..] == Widen(data[1..]);
      RegisterBits(words[1..], data[1..], Times(c ^ words[0], 8));
    }
  }

  /** The checksum is what the loop over 32-bit words computes, complemented. */
  lemma OnMachineWords(words: seq<bv32>, data: seq<Byte>)
    requires Holds(words, data)
    ensures Checksum(data) == FromBits(Bits(!Register(words, 0xffff_ffff)))
  {
    hide Register, Bits, Holds;
    AllOnesBits();
    RegisterBits(words, data, 0xffff_ffff);
    NotBits(Register(words, 0xffff_ffff));
  }

  // ---- The check value ----

  lemma Digit(b: Byte, x: bv32)
    requires x >> 8 == 0
    requires Agree(b / 16, x >> 4, 4) && (b % 2 == 1) == (x & 1 == 1) && (b / 2 % 2 == 1) == ((x >> 1) & 1 == 1)
    requires (b / 4 % 2 == 1) == ((x >> 2) & 1 == 1) && (b / 8 % 2 == 1) == ((x >> 3) & 1 == 1)
    ensures FromByte(b) == Bits(x)
  {
    AgreeMore(b, x, 4);
    hide Bit, BitOf;
    forall i: nat | i < 32
      ensures FromByte(b)[i] == Bits(x)[i]
    {
      if i >= 8 {
        EightDown(x, i - 8);
        ZeroBits(i - 8);
      }
    }
  }

  lemma Three()
    ensures Agree(3, 3, 4)
  {
    AgreeMore(3, 3, 0);
  }

  function DigitWords(): seq<bv32> {
    [0x31, 0x32, 0x33, 0x34, 0x35, 0x36, 0x37, 0x38, 0x39]
  }

  lemma CheckDigits()
    ensures Holds(DigitWords(), [0x31, 0x32, 0x33, 0x34, 0x35, 0x36, 0x37, 0x38, 0x39])
  {
    hide FromByte, Agree;
    Three();
    Digit(0x31, 0x31);
    Digit(0x32, 0x32);
    Digit(0x33, 0x33);
    Digit(0x34, 0x34);
    Digit(0x35, 0x35);
    Digit(0x36, 0x36);
    Digit(0x37, 0x37);
    Digit(0x38, 0x38);
    Digit(0x39, 0x39);
  }

  lemma OneWord(c: bv32, word: bv32, words: seq<bv32>, after: bv32)
    requires words != [] && words[0] == word
    requires Shift(Shift(Shift(Shift(Shift(Shift(Shift(Shift(c ^ word)))))))) == after
    ensures Register(words, c) == Register(words[1..], after)
  {
    var x := c ^ word;
    hide Shift;
    assert Times(x, 8) == Times(Shift(x), 7) == Times(Shift(Shift(x)), 6) == Times(Shift(Shift(Shift(x))), 5);
    var y := Shift(Shift(Shift(x)));
    assert Times(y, 5) == Times(Shift(y), 4) == Times(Shift(Shift(y)), 3) == Times(Shift(Shift(Shift(y))), 2);
    var z := Shift(Shift(Shift(y)));
    assert Times(z, 2) == Times(Shift(z), 1) == Times(Shift(Shift(z)), 0);
  }

  lemma NoWords(words: seq<bv32>, c: bv32)
    requires words == []
    ensures Register(words, c) == c
  {
  }

  lemma CheckRegister()
    ensures Register(DigitWords(), 0xffff_ffff) == 0x340b_c6d9
  {
    var words := DigitWords();
    hide Register;
    assert words == words[0..];
    OneWord(0xffffffff, 0x31, words[0..], 0x7c231048);
    OneWord(0x7c231048, 0x32, words[1..], 0xb0acbb32);
    OneWord(0xb0acbb32, 0x33, words[2..], 0x77b79c2d);
    OneWord(0x77b79c2d, 0x34, words[3..], 0x641c1f5c);
    OneWord(0x641c1f5c, 0x35, words[4..], 0x340ac5e3);
    OneWord(0x340ac5e3, 0x36, words[5..], 0xf68d2c9e);
    OneWord(0xf68d2c9e, 0x37, words[6..], 0xaffc9660);
    OneWord(0xaffc9660, 0x38, words[7..], 0x651f2550);
    OneWord(0x651f2550, 0x39, words[8..], 0x340bc6d9);
    NoWords(words[9..], 0x340b_c6d9);
    forall k: nat | k < 9
      ensures words[k..][1..] == words[k + 1..]
    {
    }
  }

  /** The published check value of this CRC: the checksum of the nine digits "123456789". */
  lemma CheckValue()
    ensures Checksum([0x31, 0x32, 0x33, 0x34, 0x35, 0x36, 0x37, 0x38, 0x39]) == 0xcbf4_3926
  {
    hide Register, Bits, Holds;
    CheckDigits();
    CheckRegister();
    OnMachineWords(DigitWords(), [0x31, 0x32, 0x33, 0x34, 0x35, 0x36, 0x37, 0x38, 0x39]);
    assert !(0x340b_c6d9 as bv32) == 0xcbf4_3926;
    CheckBits();
    PowerOfTwo();
    FromToBits(0xcbf4_3926, 32);
  }

  lemma PowerOfTwo()
    ensures Pow2(32) == 0x1_0000_0000
  {
    assert Pow2(8) == 256;
    assert Pow2(16) == 0x1_0000;
    assert Pow2(24) == 0x100_0000;
  }
}
