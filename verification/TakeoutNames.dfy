/** Names for exported files: harmless path components, and numbered alternatives to a name already taken. */
module TakeoutNames {
  import opened Collections
  import opened Decimals
  import opened Wrappers

  /** A relative path, component by component. */
  type Path = seq<string>

  const CANDIDATES: nat := 10_000

  // ---- Safe names ----

  function Replaced(name: string): (r: string)
    ensures |r| == |name| && '/' !in r && '\\' !in r && '\0' !in r
    ensures forall k :: 0 <= k < |name| && name[k] != '/' && name[k] != '\\' && name[k] != '\0' ==> r[k] == name[k]
  {
    if name == "" then ""
    else
      var c := name[0];
      [if c == '/' || c == '\\' || c == '\0' then '_' else c] + Replaced(name[1..])
  }

  /** One ordinary component: no separator, and not a step to the same or the parent directory. */
  predicate Harmless(c: string) {
    c != "" && c != "." && c != ".." && '/' !in c
  }

  function SafeName(name: string): (r: string)
    ensures Harmless(r)
    ensures Harmless(name) && '\\' !in name && '\0' !in name ==> r == name
  {
    var replaced := Replaced(name);
    assert (forall k :: 0 <= k < |name| ==> replaced[k] == name[k]) ==> replaced == name;
    if replaced == "" || replaced == "." || replaced == ".." then "unnamed" else replaced
  }

  predicate Separator(c: char) {
    c == '/' || c == '\\' || c == '\0'
  }

  lemma {:induction false} ReplacedExactly(name: string)
    ensures |Replaced(name)| == |name|
    ensures forall k :: 0 <= k < |name| ==> Replaced(name)[k] == if Separator(name[k]) then '_' else name[k]
  {
    if name != "" {
      ReplacedExactly(name[1..]);
    }
  }

  /** Separators become underscores and nothing else changes; a name that would be empty or a step becomes "unnamed". */
  lemma SafeNameExactly(name: string)
    ensures name == "" || name == "." || name == ".." ==> SafeName(name) == "unnamed"
    ensures name != "" && name != "." && name != ".." ==>
              && |SafeName(name)| == |name|
              && forall k :: 0 <= k < |name| ==> SafeName(name)[k] == if Separator(name[k]) then '_' else name[k]
  {
    ReplacedExactly(name);
    assert forall k :: 0 <= k < |name| && Replaced(name)[k] != '_' ==> Replaced(name)[k] == name[k];
  }

  /** A path as the manifest stores it. */
  datatype Stored = Stored(absolute: bool, parts: Path)

  function SafeManifestPath(stored: Stored): Option<Path> {
    if stored.absolute || ".." in stored.parts then None else Some(stored.parts)
  }

  // ---- Numbered alternatives ----

  /** The position of the last dot, or -1. */
  function LastDot(name: string): (d: int)
    ensures -1 <= d < |name| && (d >= 0 ==> name[d] == '.')
    ensures forall k :: d < k < |name| ==> name[k] != '.'
  {
    if name == "" then -1
    else if name[|name| - 1] == '.' then |name| - 1
    else LastDot(name[..|name| - 1])
  }

  datatype Split = Split(stem: string, extension: string)

  /** Divided at the last dot if there is something on both sides of it. */
  function SplitName(name: string): (s: Split)
    ensures name == if s.extension == "" then s.stem else s.stem + "." + s.extension
  {
    var d := LastDot(name);
    if d > 0 && d < |name| - 1 then
      assert name == name[..d] + "." + name[d + 1..];
      Split(name[..d], name[d + 1..])
    else Split(name, "")
  }

  function Suffix(extension: string): string {
    if extension == "" then ")" else ")." + extension
  }

  function CandidateName(name: string, k: nat): string {
    if k == 0 then name
    else
      var s := SplitName(name);
      s.stem + " (" + Decimal(k) + Suffix(s.extension)
  }

  function Candidate(parent: Path, name: string, k: nat): Path {
    parent + [CandidateName(name, k)]
  }

  function Fallback(parent: Path, name: string): Path {
    parent + [name + " (collision)"]
  }

  lemma MiddleEqual(a: string, x: string, y: string, b: string)
    requires a + x + b == a + y + b
    ensures x == y
  {
    assert |x| == |y|;
    forall k | 0 <= k < |x|
      ensures x[k] == y[k]
    {
      assert (a + x + b)[|a| + k] == x[k] && (a + y + b)[|a| + k] == y[k];
    }
  }

  lemma CandidatesDiffer(parent: Path, name: string, i: nat, j: nat)
    requires i != j
    ensures Candidate(parent, name, i) != Candidate(parent, name, j)
  {
    var s := SplitName(name);
    if Candidate(parent, name, i) == Candidate(parent, name, j) {
      assert Candidate(parent, name, i)[|parent|] == CandidateName(name, i);
      assert Candidate(parent, name, j)[|parent|] == CandidateName(name, j);
      assert i == 0 ==> |CandidateName(name, j)| > |name|;
      assert j == 0 ==> |CandidateName(name, i)| > |name|;
      MiddleEqual(s.stem + " (", Decimal(i), Decimal(j), Suffix(s.extension));
      DecimalInjective(i, j);
    }
  }

  function FirstUnused(parent: Path, name: string, used: set<Path>, k: nat): (r: Option<Path>)
    requires k <= CANDIDATES
    decreases CANDIDATES - k
  {
    if k == CANDIDATES then None
    else if Candidate(parent, name, k) !in used then Some(Candidate(parent, name, k))
    else FirstUnused(parent, name, used, k + 1)
  }

  lemma {:induction false} FirstUnusedMeaning(parent: Path, name: string, used: set<Path>, k: nat)
    requires k <= CANDIDATES
    ensures var r := FirstUnused(parent, name, used, k);
            && (r.Some? ==>
                  && r.value !in used
                  && exists i: nat :: k <= i < CANDIDATES && r.value == Candidate(parent, name, i))
            && (r.None? ==> forall i: nat :: k <= i < CANDIDATES ==> Candidate(parent, name, i) in used)
    decreases CANDIDATES - k
  {
    hide Candidate;
    if k < CANDIDATES && Candidate(parent, name, k) in used {
      FirstUnusedMeaning(parent, name, used, k + 1);
    }
  }

  lemma PlainCandidate(name: string)
    ensures CandidateName(name, 0) == name
  {
  }

  lemma NumberedName(name: string, k: nat)
    requires k > 0
    ensures var s := SplitName(name);
            CandidateName(name, k) == if s.extension == "" then s.stem + " (" + Decimal(k) + ")"
                                      else s.stem + " (" + Decimal(k) + ")." + s.extension
  {
    var s := SplitName(name);
    var front := s.stem + " (" + Decimal(k);
    assert (front + ").") + s.extension == front + (")." + s.extension);
  }

  lemma LastDotAt(name: string, d: nat)
    requires d < |name| && name[d] == '.' && '.' !in name[d + 1..]
    ensures LastDot(name) == d
  {
    assert forall e :: d < e < |name| ==> name[e] == name[d + 1..][e - (d + 1)];
  }

  /** The number goes in front of the extension: what follows the last dot, if there is something on both sides. */
  lemma NumberedAt(name: string, k: nat, d: nat)
    requires k > 0
    ensures d < |name| && name[d] == '.' && '.' !in name[d + 1..] ==>
              CandidateName(name, k) == if 0 < d < |name| - 1 then name[..d] + " (" + Decimal(k) + ")." + name[d + 1..]
                                        else name + " (" + Decimal(k) + ")"
    ensures '.' !in name ==> CandidateName(name, k) == name + " (" + Decimal(k) + ")"
  {
    NumberedName(name, k);
    if d < |name| && name[d] == '.' && '.' !in name[d + 1..] {
      LastDotAt(name, d);
    }
    hide CandidateName, Decimal;
  }

  /** One more candidate looked at. */
  lemma NextUnused(parent: Path, name: string, used: set<Path>, k: nat)
    requires k <= CANDIDATES
    ensures k < CANDIDATES && Candidate(parent, name, k) in used ==>
              FirstUnused(parent, name, used, k) == FirstUnused(parent, name, used, k + 1)
    ensures k < CANDIDATES && Candidate(parent, name, k) !in used ==>
              FirstUnused(parent, name, used, k) == Some(Candidate(parent, name, k))
    ensures k == CANDIDATES ==> FirstUnused(parent, name, used, k) == None
    ensures Candidate(parent, name, k) == parent + [CandidateName(name, k)]
  {
  }

  lemma UniqueMeaning(parent: Path, name: string, used: set<Path>)
    ensures var first := FirstUnused(parent, name, used, 0);
            UniquePath(parent, name, used) == if first.Some? then first.value else parent + [name + " (collision)"]
  {
    hide FirstUnused;
  }

  method UniqueRelativePath(parent: Path, name: string, used: set<Path>) returns (path: Path)
    ensures path == UniquePath(parent, name, used)
  {
    hide FirstUnused, UniquePath, Candidate, CandidateName, SplitName, Decimal;
    var candidate := parent + [name];
    PlainCandidate(name);
    NextUnused(parent, name, used, 0);
    UniqueMeaning(parent, name, used);
    if candidate !in used {
      return candidate;
    }
    var s := SplitName(name);
    for index := 1 to CANDIDATES
      invariant FirstUnused(parent, name, used, 0) == FirstUnused(parent, name, used, index)
    {
      var numbered := if s.extension == "" then s.stem + " (" + Decimal(index) + ")"
                      else s.stem + " (" + Decimal(index) + ")." + s.extension;
      NumberedName(name, index);
      NextUnused(parent, name, used, index);
      candidate := parent + [numbered];
      if candidate !in used {
        return candidate;
      }
    }
    NextUnused(parent, name, used, CANDIDATES);
    return parent + [name + " (collision)"];
  }

  function UniquePath(parent: Path, name: string, used: set<Path>): Path {
    var first := FirstUnused(parent, name, used, 0);
    if first.Some? then first.value else Fallback(parent, name)
  }

  lemma {:induction false} ManyCandidates(parent: Path, name: string, used: set<Path>, n: nat) returns (s: set<Path>)
    requires forall i: nat :: i < n ==> Candidate(parent, name, i) in used
    ensures s <= used && |s| == n && forall p :: p in s ==> exists i: nat :: i < n && p == Candidate(parent, name, i)
  {
    if n == 0 {
      s := {};
    } else {
      var rest := ManyCandidates(parent, name, used, n - 1);
      var last := Candidate(parent, name, n - 1);
      forall p | p in rest
        ensures p != last
      {
        var i: nat :| i < n - 1 && p == Candidate(parent, name, i);
        CandidatesDiffer(parent, name, i, n - 1);
      }
      s := rest + {last};
    }
  }

  /** The used paths in one folder. */
  function Siblings(parent: Path, used: set<Path>): set<Path> {
    set q | q in used && |q| == |parent| + 1 && q[..|parent|] == parent
  }

  /** The chosen path is unused unless all 10,000 candidates and the unchecked last resort are used; by the
      pigeonhole principle that takes at least 10,000 used paths in the folder. */
  lemma UniqueUnlessExhausted(parent: Path, name: string, used: set<Path>)
    ensures UniquePath(parent, name, used) !in used
            <==> !(FirstUnused(parent, name, used, 0).None? && Fallback(parent, name) in used)
    ensures |Siblings(parent, used)| < CANDIDATES ==>
              FirstUnused(parent, name, used, 0).Some? && UniquePath(parent, name, used) !in used
    ensures |used| < CANDIDATES ==> FirstUnused(parent, name, used, 0).Some? && UniquePath(parent, name, used) !in used
  {
    FirstUnusedMeaning(parent, name, used, 0);
    hide Candidate, FirstUnused;
    if FirstUnused(parent, name, used, 0).None? {
      var s := ManyCandidates(parent, name, used, CANDIDATES);
      forall p | p in s
        ensures p in Siblings(parent, used)
      {
        var i: nat :| i < CANDIDATES && p == Candidate(parent, name, i);
        CandidateInFolder(parent, name, i);
      }
      SubsetSmaller(s, Siblings(parent, used));
      SubsetSmaller(s, used);
    }
  }

  lemma CandidateInFolder(parent: Path, name: string, i: nat)
    ensures |Candidate(parent, name, i)| == |parent| + 1 && Candidate(parent, name, i)[..|parent|] == parent
  {
  }

  /** Every choice under a harmless directory is a path the manifest can give back. */
  lemma UniqueIsSafe(parent: Path, name: string, used: set<Path>)
    requires Harmless(name) && forall c :: c in parent ==> Harmless(c)
    ensures SafeManifestPath(Stored(false, UniquePath(parent, name, used))) == Some(UniquePath(parent, name, used))
    ensures parent <= UniquePath(parent, name, used)
  {
    var c := NewName(parent, name, used);
    hide UniquePath, Harmless;
    assert forall d :: d in parent + [c] ==> d in parent || d == c;
    NoParentStep();
  }

  lemma NoParentStep()
    ensures !Harmless("..")
  {
  }

  /** The chosen path adds one harmless-enough name to the folder. */
  lemma NewName(parent: Path, name: string, used: set<Path>) returns (c: string)
    requires Harmless(name)
    ensures UniquePath(parent, name, used) == parent + [c] && c != ".."
  {
    var first := FirstUnused(parent, name, used, 0);
    FirstUnusedMeaning(parent, name, used, 0);
    hide FirstUnused;
    if first.Some? {
      var i: nat :| i < CANDIDATES && first.value == Candidate(parent, name, i);
      c := CandidateName(name, i);
      assert i > 0 ==> |c| > |".."|;
    } else {
      c := name + " (collision)";
      assert |c| > |".."|;
    }
  }

  // ---- The manifest's own names ----

  function ManifestName(): string {
    ".pdcli-takeout-manifest.json"
  }

  function TemporaryName(): string {
    ManifestName() + ".tmp"
  }

  predicate ReservedName(name: string) {
    name == ManifestName() || name == TemporaryName()
  }

  function ManifestPath(): Path {
    [ManifestName()]
  }

  function TemporaryPath(): Path {
    [TemporaryName()]
  }

  /** Where the manifest is written, or where it is prepared. */
  predicate Reserved(p: Path) {
    p == ManifestPath() || p == TemporaryPath()
  }

  lemma ReservedPath(p: Path)
    ensures Reserved(p) <==> |p| == 1 && ReservedName(p[0])
  {
    hide ManifestName, TemporaryName;
  }

  /** The two names at the top of the destination. */
  lemma ReservedExactly(p: Path)
    ensures Reserved(p) <==> p == [".pdcli-takeout-manifest.json"] || p == [".pdcli-takeout-manifest.json.tmp"]
  {
    assert TemporaryName() == ".pdcli-takeout-manifest.json.tmp";
  }

  /** Small letters, dots and hyphens. */
  predicate Simple(name: string) {
    forall k :: 0 <= k < |name| ==> 'a' <= name[k] <= 'z' || name[k] == '.' || name[k] == '-'
  }

  lemma NamesAreSimple()
    ensures Simple(ManifestName()) && Simple(TemporaryName()) && |ManifestName()| > 2 && |TemporaryName()| > 2
  {
    assert Simple(ManifestName());
    assert Simple(".tmp");
    hide ManifestName;
  }

  /** Both are plain names: exported files may be called so. */
  lemma ReservedIsPlain(name: string)
    requires ReservedName(name)
    ensures SafeName(name) == name && Harmless(name) && '(' !in name && name != ""
  {
    hide ManifestName, TemporaryName;
    NamesAreSimple();
    SimpleIsPlain(name);
  }

  lemma SimpleIsPlain(name: string)
    requires Simple(name) && |name| > 2
    ensures SafeName(name) == name && Harmless(name) && '(' !in name
  {
    assert |".."| == 2 && |"."| == 1;
  }

  lemma NamesDiffer()
    ensures ManifestName() != TemporaryName() && ManifestPath() != TemporaryPath()
  {
    hide ManifestName;
    assert |TemporaryName()| == |ManifestName()| + 4;
    assert ManifestPath()[0] == ManifestName() && TemporaryPath()[0] == TemporaryName();
  }

  lemma NumberedWithBracket(name: string, k: nat)
    requires k > 0
    ensures '(' in CandidateName(name, k) && '(' in name + " (collision)"
  {
    var s := SplitName(name);
    assert CandidateName(name, k)[|s.stem| + 1] == '(';
    assert (name + " (collision)")[|name| + 1] == '(';
  }

  /** The chosen name is the given one if that is unused, and otherwise has a bracket in it. */
  lemma UniqueName(parent: Path, name: string, used: set<Path>) returns (c: string)
    ensures UniquePath(parent, name, used) == parent + [c]
    ensures if parent + [name] !in used then c == name else '(' in c
  {
    hide FirstUnused, CandidateName;
    FirstUnusedMeaning(parent, name, used, 0);
    PlainCandidate(name);
    NumberedWithBracket(name, 1);
    var first := FirstUnused(parent, name, used, 0);
    if parent + [name] !in used {
      UsePlain(parent, name, used);
      c := name;
    } else if first.Some? {
      var i: nat :| i < CANDIDATES && first.value == Candidate(parent, name, i);
      assert i > 0;
      NumberedWithBracket(name, i);
      c := CandidateName(name, i);
    } else {
      c := name + " (collision)";
    }
  }

  lemma UsePlain(parent: Path, name: string, used: set<Path>)
    requires parent + [name] !in used
    ensures UniquePath(parent, name, used) == parent + [name]
  {
  }

  /** A new file gets one of the manifest's names only at the top, if it is called so and nothing is there. */
  lemma UniqueReserved(parent: Path, name: string, used: set<Path>)
    ensures Reserved(UniquePath(parent, name, used)) <==> parent == [] && ReservedName(name) && [name] !in used
    ensures Reserved(UniquePath(parent, name, used)) ==> UniquePath(parent, name, used) == [name]
  {
    hide UniquePath, ManifestName, TemporaryName, Reserved;
    var c := UniqueName(parent, name, used);
    if ReservedName(c) {
      ReservedIsPlain(c);
    }
    ReservedPath(parent + [c]);
    assert parent == [] ==> parent + [c] == [c] && parent + [name] == [name];
  }
}
