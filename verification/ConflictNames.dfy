/** Names of conflict copies, and how they are recognised. */
module ConflictNames {
  import opened Decimals
  import opened TakeoutNames
  import opened Wrappers

  const MARK := " (pdcli conflict "
  const COPIES: nat := 1000

  datatype Side = LocalSide | RemoteSide

  function SideName(side: Side): string {
    if side.LocalSide? then "local" else "remote"
  }

  predicate OccursAt(s: string, part: string, i: int) {
    0 <= i <= |s| - |part| && s[i..i + |part|] == part
  }

  predicate Contains(s: string, part: string) {
    exists i :: 0 <= i <= |s| && OccursAt(s, part, i)
  }

  predicate IsConflictName(name: string) {
    Contains(name, MARK)
  }

  function Ending(extension: string): string {
    if extension == "" then "" else "." + extension
  }

  /** The time stamp and the index are written without anything between them. */
  function ConflictName(name: string, side: Side, stamp: nat, index: nat): string {
    var s := SplitName(name);
    s.stem + MARK + SideName(side) + " " + Decimal(stamp) + Decimal(index) + ")" + Ending(s.extension)
  }

  lemma ContainsMiddle(a: string, part: string, b: string)
    ensures Contains(a + part + b, part)
  {
    assert OccursAt(a + part + b, part, |a|);
  }

  /** Every conflict copy is recognised as one. */
  lemma ConflictNameRecognised(name: string, side: Side, stamp: nat, index: nat)
    ensures IsConflictName(ConflictName(name, side, stamp, index))
  {
    var s := SplitName(name);
    var end := Ending(s.extension);
    var rest := SideName(side) + " " + Decimal(stamp) + Decimal(index) + ")" + end;
    ContainsMiddle(s.stem, MARK, rest);
    hide SplitName, Decimal, SideName, Contains;
    SixParts(s.stem + MARK, SideName(side), " ", Decimal(stamp), Decimal(index), ")", end);
  }

  lemma SixParts(a: string, b: string, c: string, d: string, e: string, f: string, g: string)
    ensures a + b + c + d + e + f + g == a + (b + c + d + e + f + g)
  {
    assert a + b + c == a + (b + c);
    assert a + (b + c) + d == a + (b + c + d);
    assert a + (b + c + d) + e == a + (b + c + d + e);
    assert a + (b + c + d + e) + f == a + (b + c + d + e + f);
    assert a + (b + c + d + e + f) + g == a + (b + c + d + e + f + g);
  }

  /** `q` is named like a conflict copy of `p`, in the same folder. */
  ghost predicate ConflictOf(p: Path, q: Path) {
    exists side, stamp: nat, index: nat :: CopyOf(p, q, side, stamp, index)
  }

  predicate CopyOf(p: Path, q: Path, side: Side, stamp: nat, index: nat) {
    p != [] && q == Sibling(p, ConflictName(p[|p| - 1], side, stamp, index))
  }

  function Sibling(p: Path, name: string): Path
    requires p != []
  {
    p[..|p| - 1] + [name]
  }

  lemma ConflictOfIsConflict(p: Path, q: Path)
    requires ConflictOf(p, q)
    ensures q != [] && IsConflictName(q[|q| - 1])
  {
    var side, stamp: nat, index: nat :| CopyOf(p, q, side, stamp, index);
    ConflictNameRecognised(p[|p| - 1], side, stamp, index);
  }

  /** The first conflict name that does not exist yet. */
  function FreeConflict(taken: set<Path>, p: Path, side: Side, stamp: nat, index: nat): (r: Option<Path>)
    requires p != [] && index <= COPIES
    ensures r.Some? ==> r.value !in taken && ConflictOf(p, r.value)
    decreases COPIES - index
  {
    if index == COPIES then None
    else
      var candidate := Sibling(p, ConflictName(p[|p| - 1], side, stamp, index));
      assert CopyOf(p, candidate, side, stamp, index);
      if candidate !in taken then Some(candidate) else FreeConflict(taken, p, side, stamp, index + 1)
  }

  // ---- A conflict copy belongs to one file ----

  lemma MarkLetters(d: nat)
    requires 0 < d < |MARK|
    ensures |MARK| == 17 && MARK[0] == ' '
    ensures MARK[d] == ' ' ==> MARK[17 - d] != 'l' && MARK[17 - d] != 'r'
  {
    assert MARK[1] == '(' && MARK[2] == 'p' && MARK[3] == 'd' && MARK[4] == 'c' && MARK[5] == 'l' && MARK[6] == 'i';
    assert MARK[8] == 'c' && MARK[9] == 'o' && MARK[10] == 'n' && MARK[11] == 'f' && MARK[12] == 'l' && MARK[13] == 'i';
    assert MARK[14] == 'c' && MARK[15] == 't';
    assert d == 7 || d == 16 || MARK[d] != ' ';
  }

  lemma MarksOverlap(a: string, x: string, b: string, y: string)
    requires a + MARK + x == b + MARK + y && |a| < |b| < |a| + |MARK| && x != ""
    ensures MARK[|b| - |a|] == MARK[0] && MARK[|MARK| - (|b| - |a|)] == x[0]
  {
    var t := a + MARK + x;
    assert t[|b|] == MARK[|b| - |a|] && t[|b|] == MARK[0];
    assert t[|a| + |MARK|] == x[0] && t[|a| + |MARK|] == MARK[|MARK| - (|b| - |a|)];
  }

  lemma MarkInside(a: string, x: string, b: string, y: string)
    requires a + MARK + x == b + MARK + y && |a| + |MARK| <= |b|
    ensures Contains(b, MARK)
  {
    var t := a + MARK + x;
    assert t[|a|..|a| + |MARK|] == MARK && b[|a|..|a| + |MARK|] == t[|a|..|a| + |MARK|];
    assert OccursAt(b, MARK, |a|);
  }

  /** The mark cannot start inside an earlier one that a side's name follows. */
  lemma MarkInFront(a: string, x: string, b: string, y: string)
    requires a + MARK + x == b + MARK + y && |a| < |b|
    requires x != "" && x[0] in {'l', 'r'}
    ensures Contains(b, MARK)
  {
    if |b| - |a| < |MARK| {
      MarkLetters(|b| - |a|);
      MarksOverlap(a, x, b, y);
    } else {
      MarkInside(a, x, b, y);
    }
  }

  lemma SameFront(a: string, x: string, b: string, y: string)
    requires a + MARK + x == b + MARK + y && !Contains(a, MARK) && !Contains(b, MARK)
    requires x != "" && y != "" && x[0] in {'l', 'r'} && y[0] in {'l', 'r'}
    ensures a == b && x == y
  {
    hide Contains;
    if |a| < |b| {
      MarkInFront(a, x, b, y);
    } else if |b| < |a| {
      MarkInFront(b, y, a, x);
    }
    SameParts(a, MARK, x, b, MARK, y);
  }

  lemma SameParts(a: string, m: string, x: string, b: string, n: string, y: string)
    requires a + m + x == b + n + y && |a| == |b| && |m| == |n|
    ensures a == b && m == n && x == y
  {
    assert (a + m + x)[..|a|] == a && (b + n + y)[..|b|] == b;
    assert (a + m + x)[|a|..|a| + |m|] == m && (b + n + y)[|b|..|b| + |n|] == n;
    assert (a + m + x)[|a| + |m|..] == x && (b + n + y)[|b| + |n|..] == y;
  }

  predicate Digits(s: string) {
    forall k :: 0 <= k < |s| ==> '0' <= s[k] <= '9'
  }

  lemma DigitsEnd(t: string, v: string, k: nat)
    requires v <= t && Digits(v) && k < |t| && t[k] == ')'
    ensures |v| <= k
  {
  }

  lemma SameEnd(u: string, x: string, v: string, y: string)
    requires Digits(u) && Digits(v) && u + ")" + x == v + ")" + y
    ensures x == y
  {
    var t := u + ")" + x;
    assert t[|u|] == ')' && t[|v|] == ')';
    DigitsEnd(t, u, |v|);
    DigitsEnd(t, v, |u|);
    SameParts(u, ")", x, v, ")", y);
  }

  /** What follows the mark. */
  function AfterMark(side: Side, stamp: nat, index: nat, extension: string): string {
    SideName(side) + " " + (Decimal(stamp) + Decimal(index) + ")" + Ending(extension))
  }

  lemma NameParts(name: string, side: Side, stamp: nat, index: nat)
    ensures var s := SplitName(name);
            && ConflictName(name, side, stamp, index) == s.stem + MARK + AfterMark(side, stamp, index, s.extension)
            && name == s.stem + Ending(s.extension)
  {
    var s := SplitName(name);
    hide SplitName, Decimal, SideName;
    SixParts(s.stem + MARK, SideName(side), " ", Decimal(stamp), Decimal(index), ")", Ending(s.extension));
    FourParts(SideName(side), " ", Decimal(stamp), Decimal(index), ")", Ending(s.extension));
  }

  /** The mark, the side, the time and the index go in front of the extension. */
  lemma ConflictNameAt(name: string, side: Side, stamp: nat, index: nat, d: nat)
    ensures var added := " (pdcli conflict " + (if side.LocalSide? then "local" else "remote") + " "
                         + Decimal(stamp) + Decimal(index) + ")";
            && ('.' !in name ==> ConflictName(name, side, stamp, index) == name + added)
            && (d < |name| && name[d] == '.' && '.' !in name[d + 1..] ==>
                  ConflictName(name, side, stamp, index)
                  == if 0 < d < |name| - 1 then name[..d] + added + name[d..] else name + added)
  {
    var added := MARK + SideName(side) + " " + Decimal(stamp) + Decimal(index) + ")";
    if d < |name| && name[d] == '.' && '.' !in name[d + 1..] {
      LastDotAt(name, d);
      assert name[d..] == "." + name[d + 1..];
    }
    var s := SplitName(name);
    SixAgain(s.stem, MARK, SideName(side), " ", Decimal(stamp), Decimal(index), ")", Ending(s.extension));
    hide Decimal;
  }

  lemma SixAgain(a: string, b: string, c: string, d: string, e: string, f: string, g: string, h: string)
    ensures a + b + c + d + e + f + g + h == a + (b + c + d + e + f + g) + h
  {
    SixParts(a, b, c, d, e, f, g);
  }

  lemma FourParts(b: string, c: string, d: string, e: string, f: string, g: string)
    ensures b + c + d + e + f + g == b + c + (d + e + f + g)
  {
    assert b + c + d + e == b + c + (d + e);
    assert b + c + (d + e) + f == b + c + (d + e + f);
    assert b + c + (d + e + f) + g == b + c + (d + e + f + g);
  }

  lemma SameExtension(side: Side, stamp: nat, index: nat, x: string, side2: Side, stamp2: nat, index2: nat, y: string)
    requires AfterMark(side, stamp, index, x) == AfterMark(side2, stamp2, index2, y)
    ensures Ending(x) == Ending(y)
  {
    hide Decimal, Ending;
    assert AfterMark(side, stamp, index, x)[0] == SideName(side)[0];
    assert AfterMark(side2, stamp2, index2, y)[0] == SideName(side2)[0];
    assert side == side2;
    SameParts(SideName(side), " ", Decimal(stamp) + Decimal(index) + ")" + Ending(x),
              SideName(side2), " ", Decimal(stamp2) + Decimal(index2) + ")" + Ending(y));
    SameEnd(Decimal(stamp) + Decimal(index), Ending(x), Decimal(stamp2) + Decimal(index2), Ending(y));
  }

  lemma ContainsLonger(a: string, part: string, b: string)
    ensures Contains(a, part) ==> Contains(a + b, part)
  {
    forall i | 0 <= i <= |a| && OccursAt(a, part, i)
      ensures OccursAt(a + b, part, i)
    {
      assert (a + b)[i..i + |part|] == a[i..i + |part|];
    }
  }

  lemma StemUnmarked(name: string)
    requires !IsConflictName(name)
    ensures !Contains(SplitName(name).stem, MARK)
  {
    hide Contains;
    var s := SplitName(name);
    assert name == s.stem + Ending(s.extension);
    ContainsLonger(s.stem, MARK, Ending(s.extension));
  }

  lemma SideLetter(side: Side, stamp: nat, index: nat, extension: string)
    ensures AfterMark(side, stamp, index, extension) != "" && AfterMark(side, stamp, index, extension)[0] in {'l', 'r'}
  {
    assert SideName(side)[0] in {'l', 'r'};
    hide Decimal, SideName;
  }

  /** A conflict name tells which file it is a copy of. */
  lemma CopiedNameUnique(name: string, side: Side, stamp: nat, index: nat,
                         name2: string, side2: Side, stamp2: nat, index2: nat)
    requires !IsConflictName(name) && !IsConflictName(name2)
    requires ConflictName(name, side, stamp, index) == ConflictName(name2, side2, stamp2, index2)
    ensures name == name2
  {
    hide SplitName, ConflictName, AfterMark, IsConflictName, Contains, Ending;
    var (s, s2) := (SplitName(name), SplitName(name2));
    NameParts(name, side, stamp, index);
    NameParts(name2, side2, stamp2, index2);
    StemUnmarked(name);
    StemUnmarked(name2);
    SideLetter(side, stamp, index, s.extension);
    SideLetter(side2, stamp2, index2, s2.extension);
    SameFront(s.stem, AfterMark(side, stamp, index, s.extension), s2.stem,
        AfterMark(side2, stamp2, index2, s2.extension));
    SameExtension(side, stamp, index, s.extension, side2, stamp2, index2, s2.extension);
  }

  predicate Unmarked(p: Path) {
    p != [] && !IsConflictName(p[|p| - 1])
  }

  /** No path is a conflict copy of two files that are not copies themselves. */
  lemma CopyOfOne(p: Path, q: Path, c: Path)
    requires Unmarked(p) && Unmarked(q) && ConflictOf(p, c) && ConflictOf(q, c)
    ensures p == q
  {
    hide ConflictName, IsConflictName;
    var side, stamp: nat, index: nat :| CopyOf(p, c, side, stamp, index);
    var side2, stamp2: nat, index2: nat :| CopyOf(q, c, side2, stamp2, index2);
    var (x, y) := (ConflictName(p[|p| - 1], side, stamp, index), ConflictName(q[|q| - 1], side2, stamp2, index2));
    assert c == p[..|p| - 1] + [x] && c == q[..|q| - 1] + [y];
    assert c[|c| - 1] == x && c[|c| - 1] == y && c[..|c| - 1] == p[..|p| - 1] && c[..|c| - 1] == q[..|q| - 1];
    CopiedNameUnique(p[|p| - 1], side, stamp, index, q[|q| - 1], side2, stamp2, index2);
    assert p == p[..|p| - 1] + [p[|p| - 1]] && q == q[..|q| - 1] + [q[|q| - 1]];
  }
}
