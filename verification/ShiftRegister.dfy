/** Linear shift registers over any carrier, so that their algebra is proved without
    looking at bits. `Crc` instantiates it with 32-bit words. */
module ShiftRegister {

  /** `step` shifts one bit out, `xor` adds, `up` moves a value one byte higher and
      `small` says that it then still fits. */
  datatype Machine<!T> = Machine(step: T -> T, xor: (T, T) -> T, up: T -> T, small: T -> bool)

  ghost predicate Lawful<T(!new)>(m: Machine<T>) {
    && (forall a, b :: m.step(a) == m.step(b) ==> a == b)
    && (forall a, b :: m.step(m.xor(a, b)) == m.xor(m.step(a), m.step(b)))
    && (forall a, b, c :: m.xor(m.xor(a, b), c) == m.xor(a, m.xor(b, c)))
    && (forall a, b, c :: m.xor(c, a) == m.xor(c, b) ==> a == b)
    && (forall a, b, c :: m.xor(a, c) == m.xor(b, c) ==> a == b)
    && (forall y :: m.small(y) ==> Iterate(m.step, m.up(y), 8) == y)
  }

  function Iterate<T>(f: T -> T, x: T, n: nat): T
    decreases n, x
  {
    if n == 0 then x else Iterate(f, f(x), n - 1)
  }

  /** The register after all of `data`, each element xored in and shifted out. */
  function Register<T>(m: Machine<T>, data: seq<T>, c: T): T {
    if data == [] then c else Register(m, data[1..], Iterate(m.step, m.xor(c, data[0]), 8))
  }

  /** Four elements as one value, the first lowest. */
  function Word<T>(m: Machine<T>, w: seq<T>): T
    requires |w| == 4
  {
    m.xor(w[0], m.up(UpperThree(m, w)))
  }

  function UpperThree<T>(m: Machine<T>, w: seq<T>): T
    requires |w| == 4
  {
    m.xor(w[1], m.up(UpperTwo(m, w)))
  }

  function UpperTwo<T>(m: Machine<T>, w: seq<T>): T
    requires |w| == 4
  {
    m.xor(w[2], m.up(w[3]))
  }

  predicate Fits<T>(m: Machine<T>, w: seq<T>) {
    |w| == 4 && m.small(w[3]) && m.small(UpperTwo(m, w)) && m.small(UpperThree(m, w))
  }

  lemma {:induction false} IterateInjective<T(!new)>(m: Machine<T>, x: T, y: T, n: nat)
    requires Lawful(m) && Iterate(m.step, x, n) == Iterate(m.step, y, n)
    ensures x == y
    decreases n
  {
    if n > 0 {
      IterateInjective(m, m.step(x), m.step(y), n - 1);
    }
  }

  lemma {:induction false} IterateLinear<T(!new)>(m: Machine<T>, x: T, y: T, n: nat)
    requires Lawful(m)
    ensures Iterate(m.step, m.xor(x, y), n) == m.xor(Iterate(m.step, x, n), Iterate(m.step, y, n))
    decreases n
  {
    if n > 0 {
      IterateLinear(m, m.step(x), m.step(y), n - 1);
    }
  }

  lemma {:induction false} IterateAdd<T(!new)>(f: T -> T, x: T, j: nat, n: nat)
    ensures Iterate(f, x, j + n) == Iterate(f, Iterate(f, x, j), n)
    decreases j
  {
    if j > 0 {
      IterateAdd(f, f(x), j - 1, n);
    }
  }

  lemma {:induction false} RegisterInjective<T(!new)>(m: Machine<T>, data: seq<T>, c: T, d: T)
    requires Lawful(m) && Register(m, data, c) == Register(m, data, d)
    ensures c == d
  {
    if data != [] {
      var x, y := m.xor(c, data[0]), m.xor(d, data[0]);
      RegisterInjective(m, data[1..], Iterate(m.step, x, 8), Iterate(m.step, y, 8));
      IterateInjective(m, x, y, 8);
    }
  }

  lemma {:induction false} RegisterConcat<T(!new)>(m: Machine<T>, a: seq<T>, b: seq<T>, c: T)
    ensures Register(m, a + b, c) == Register(m, b, Register(m, a, c))
  {
    if a == [] {
      assert a + b == b;
    } else {
      RegisterConcat(m, a[1..], b, Iterate(m.step, m.xor(c, a[0]), 8));
      assert (a + b)[1..] == a[1..] + b;
    }
  }

  /** Xoring a small value in between two runs of shifts is xoring it one byte higher before both. */
  lemma XorEarlier<T(!new)>(m: Machine<T>, x: T, y: T, n: nat)
    requires Lawful(m) && m.small(y)
    ensures Iterate(m.step, m.xor(Iterate(m.step, x, 8), y), n) == Iterate(m.step, m.xor(x, m.up(y)), 8 + n)
  {
    IterateLinear(m, x, m.up(y), 8);
    IterateAdd(m.step, m.xor(x, m.up(y)), 8, n);
  }

  /** Feeding four elements is xoring the whole word in and shifting 32 times. */
  lemma FourElements<T(!new)>(m: Machine<T>, w: seq<T>, c: T)
    requires Lawful(m) && Fits(m, w)
    ensures Register(m, w, c) == Iterate(m.step, m.xor(c, Word(m, w)), 32)
  {
    var r1 := Iterate(m.step, m.xor(c, w[0]), 8);
    var r2 := Iterate(m.step, m.xor(r1, w[1]), 8);
    var r3 := Iterate(m.step, m.xor(r2, w[2]), 8);
    var r4 := Iterate(m.step, m.xor(r3, w[3]), 8);
    assert Register(m, w, c) == r4 by {
      assert w[1..][1..] == w[2..] && w[2..][1..] == w[3..] && w[3..][1..] == [];
      assert Register(m, w, c) == Register(m, w[1..], r1);
      assert Register(m, w[1..], r1) == Register(m, w[2..], r2);
      assert Register(m, w[2..], r2) == Register(m, w[3..], r3);
      assert Register(m, w[3..], r3) == Register(m, [], r4);
    }
    XorEarlier(m, m.xor(r2, w[2]), w[3], 8);
    assert m.xor(m.xor(r2, w[2]), m.up(w[3])) == m.xor(r2, UpperTwo(m, w));
    XorEarlier(m, m.xor(r1, w[1]), UpperTwo(m, w), 16);
    assert m.xor(m.xor(r1, w[1]), m.up(UpperTwo(m, w))) == m.xor(r1, UpperThree(m, w));
    XorEarlier(m, m.xor(c, w[0]), UpperThree(m, w), 24);
    assert m.xor(m.xor(c, w[0]), m.up(UpperThree(m, w))) == m.xor(c, Word(m, w));
  }

  /** Data that differ only in one four-element window lead to equal registers only if
      the windows are the same word. */
  lemma WindowDecides<T(!new)>(m: Machine<T>, before: seq<T>, v: seq<T>, w: seq<T>, after: seq<T>, c: T)
    requires Lawful(m) && Fits(m, v) && Fits(m, w)
    requires Register(m, before + v + after, c) == Register(m, before + w + after, c)
    ensures Word(m, v) == Word(m, w)
  {
    var d := Register(m, before, c);
    RegisterConcat(m, before + v, after, c);
    RegisterConcat(m, before + w, after, c);
    RegisterConcat(m, before, v, c);
    RegisterConcat(m, before, w, c);
    RegisterInjective(m, after, Register(m, v, d), Register(m, w, d));
    FourElements(m, v, d);
    FourElements(m, w, d);
    IterateInjective(m, m.xor(d, Word(m, v)), m.xor(d, Word(m, w)), 32);
  }

  /** A step on a sum whose upper part is only shifted down. */
  lemma SplitStep<T(!new)>(m: Machine<T>, low: T, high: T, down: T)
    requires Lawful(m) && Iterate(m.step, high, 8) == down
    ensures Iterate(m.step, m.xor(low, high), 8) == m.xor(Iterate(m.step, low, 8), down)
  {
    IterateLinear(m, low, high, 8);
  }
}
