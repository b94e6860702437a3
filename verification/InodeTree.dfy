/** Parent chains in the inode table: what adding, moving and deleting rows does to them. */
module InodeTree {
  import opened Collections
  import opened Wrappers

  /** The remote identity of a row. */
  datatype Ids = Ids(node: Option<string>, volume: Option<string>, link: Option<string>)

  datatype Row = Row(parent: nat, name: string, isDir: bool, ids: Ids)

  type Rows = map<nat, Row>

  const ROOT: nat := 1
  const NO_IDS := Ids(None, None, None)

  /** From the root down to `x`, each the parent of the next. */
  predicate Chain(rows: Rows, p: seq<nat>, x: nat) {
    && |p| > 0 && p[0] == ROOT && p[|p| - 1] == x
    && forall k :: 0 < k < |p| ==> p[k] != ROOT && p[k] in rows && rows[p[k]].parent == p[k - 1]
  }

  /** Every row's parent chain reaches the root, and every parent is a directory. */
  ghost predicate Rooted(rows: Rows) {
    && ROOT in rows && rows[ROOT].isDir && rows[ROOT].parent == ROOT
    && (forall x :: x in rows && x != ROOT ==> rows[x].parent in rows && rows[rows[x].parent].isDir)
    && (forall x :: x in rows ==> exists p :: Chain(rows, p, x))
  }

  /** `y` is `x` or a descendant of it. */
  ghost predicate Below(rows: Rows, x: nat, y: nat) {
    exists p :: Chain(rows, p, y) && x in p
  }

  ghost function WithoutTree(rows: Rows, x: nat): Rows {
    map y | y in rows && !Below(rows, x, y) :: rows[y]
  }

  // ---- Chains ----

  lemma {:induction false} ChainUnique(rows: Rows, p: seq<nat>, q: seq<nat>, x: nat)
    requires Chain(rows, p, x) && Chain(rows, q, x)
    ensures p == q
    decreases |p|
  {
    if x != ROOT {
      ChainUnique(rows, p[..|p| - 1], q[..|q| - 1], rows[x].parent);
      assert p == p[..|p| - 1] + [x] && q == q[..|q| - 1] + [x];
    }
  }

  lemma ChainPrefix(rows: Rows, p: seq<nat>, x: nat, k: nat)
    requires Chain(rows, p, x) && k < |p|
    ensures Chain(rows, p[..k + 1], p[k])
  {
  }

  lemma ChainDistinct(rows: Rows, p: seq<nat>, x: nat)
    requires Chain(rows, p, x)
    ensures Distinct(p)
  {
    forall i, j | 0 <= i < j < |p|
      ensures p[i] != p[j]
    {
      if p[i] == p[j] {
        ChainPrefix(rows, p, x, i);
        ChainPrefix(rows, p, x, j);
        ChainUnique(rows, p[..i + 1], p[..j + 1], p[i]);
      }
    }
  }

  lemma ChainLonger(rows: Rows, p: seq<nat>, x: nat, child: nat)
    requires Chain(rows, p, x) && child in rows && child != ROOT && rows[child].parent == x
    ensures Chain(rows, p + [child], child)
  {
  }

  lemma ChainShort(rows: Rows, p: seq<nat>, x: nat)
    requires ROOT in rows && Chain(rows, p, x)
    ensures |p| <= |rows|
  {
    ChainDistinct(rows, p, x);
    DistinctCount(p, rows.Keys);
    assert |rows.Keys| == |rows|;
  }

  // ---- One row ----

  lemma AddLeaf(rows: Rows, x: nat, row: Row)
    requires Rooted(rows) && x !in rows && row.parent in rows && rows[row.parent].isDir
    ensures Rooted(rows[x := row])
  {
    var after := rows[x := row];
    forall y | y in after
      ensures exists p :: Chain(after, p, y)
    {
      var at := if y == x then row.parent else y;
      var p :| Chain(rows, p, at);
      assert Chain(after, p, at);
      if y == x {
        ChainLonger(after, p, row.parent, x);
      }
    }
  }

  lemma DropLeaf(rows: Rows, x: nat)
    requires Rooted(rows) && x in rows && x != ROOT
    requires forall y :: y in rows ==> rows[y].parent != x
    ensures Rooted(rows - {x})
  {
    var after := rows - {x};
    forall y | y in after
      ensures exists p :: Chain(after, p, y)
    {
      var p :| Chain(rows, p, y);
      forall k | 0 < k < |p|
        ensures p[k] in after
      {
        assert k < |p| - 1 ==> rows[p[k + 1]].parent == p[k];
      }
      assert Chain(after, p, y);
    }
  }

  /** Moving `x` under directory `d` keeps the tree, unless `d` is in the moved subtree. */
  lemma MoveRow(rows: Rows, x: nat, d: nat, name: string)
    requires Rooted(rows) && x in rows && x != ROOT && d in rows && rows[d].isDir && !Below(rows, x, d)
    ensures Rooted(rows[x := rows[x].(parent := d, name := name)])
  {
    var after := rows[x := rows[x].(parent := d, name := name)];
    var q :| Chain(rows, q, d);
    forall y | y in after
      ensures exists p :: Chain(after, p, y)
    {
      var p :| Chain(rows, p, y);
      if x in p {
        var i :| 0 <= i < |p| && p[i] == x;
        ChainDistinct(rows, p, y);
        Spliced(rows, after, q, p, d, y, i);
      } else {
        assert Chain(after, p, y);
      }
    }
  }

  lemma Spliced(rows: Rows, after: Rows, q: seq<nat>, p: seq<nat>, d: nat, y: nat, i: nat)
    requires Chain(rows, q, d) && Chain(rows, p, y) && 0 < i < |p|
    requires p[i] in after && after[p[i]].parent == d
    requires forall k :: 0 < k < |q| ==> q[k] in after && after[q[k]].parent == rows[q[k]].parent
    requires forall k :: i < k < |p| ==> p[k] in after && after[p[k]].parent == rows[p[k]].parent
    ensures Chain(after, q + p[i..], y)
  {
    var r := q + p[i..];
    forall k | 0 < k < |r|
      ensures r[k] != ROOT && r[k] in after && after[r[k]].parent == r[k - 1]
    {
      if k >= |q| {
        assert r[k] == p[k - |q| + i];
        assert k > |q| ==> r[k - 1] == p[k - |q| + i - 1];
      }
    }
  }

  // ---- A subtree ----

  lemma BelowSteps(rows: Rows, x: nat, y: nat)
    requires Rooted(rows) && x in rows && y in rows
    ensures Below(rows, x, y) <==>
        y == x || exists c :: c in rows && c != ROOT && rows[c].parent == x && Below(rows, c, y)
  {
    var p :| Chain(rows, p, y);
    if Below(rows, x, y) && y != x {
      var q :| Chain(rows, q, y) && x in q;
      var i :| 0 <= i < |q| && q[i] == x;
      assert q[i + 1] in q && rows[q[i + 1]].parent == x && Below(rows, q[i + 1], y);
    }
    if y == x {
      assert p[|p| - 1] in p;
    }
    if c :| c in rows && c != ROOT && rows[c].parent == x && Below(rows, c, y) {
      var q :| Chain(rows, q, y) && c in q;
      var i :| 0 <= i < |q| && q[i] == c;
      assert q[i - 1] == x;
    }
  }

  lemma SameChains(rows: Rows, x: nat, p: seq<nat>, y: nat)
    requires Rooted(rows) && x in rows && x != ROOT && y in WithoutTree(rows, x)
    ensures Chain(WithoutTree(rows, x), p, y) <==> Chain(rows, p, y)
  {
    var after := WithoutTree(rows, x);
    if Chain(rows, p, y) {
      forall k | 0 < k < |p|
        ensures p[k] in after
      {
        forall q | Chain(rows, q, p[k])
          ensures x !in q
        {
          ChainPrefix(rows, p, y, k);
          ChainUnique(rows, q, p[..k + 1], p[k]);
        }
      }
    }
  }

  lemma TreeRemoved(rows: Rows, x: nat)
    requires Rooted(rows) && x in rows && x != ROOT
    ensures Rooted(WithoutTree(rows, x))
    ensures forall c, y :: y in WithoutTree(rows, x) ==> (Below(WithoutTree(rows, x), c, y) <==> Below(rows, c, y))
  {
    var after := WithoutTree(rows, x);
    forall y | y in after
      ensures exists p :: Chain(after, p, y)
      ensures y != ROOT ==> rows[y].parent in after
    {
      var p :| Chain(rows, p, y);
      SameChains(rows, x, p, y);
      assert y != ROOT ==> p[|p| - 2] == rows[y].parent;
      if y != ROOT && |p| == 2 {
        RootStays(rows, x);
      }
    }
    RootStays(rows, x);
    forall c, y | y in after
      ensures Below(after, c, y) <==> Below(rows, c, y)
    {
      if Below(after, c, y) {
        var p :| Chain(after, p, y) && c in p;
        SameChains(rows, x, p, y);
      }
      if Below(rows, c, y) {
        var p :| Chain(rows, p, y) && c in p;
        SameChains(rows, x, p, y);
      }
    }
  }

  lemma RootStays(rows: Rows, x: nat)
    requires Rooted(rows) && x in rows && x != ROOT
    ensures ROOT in WithoutTree(rows, x)
  {
    assert Chain(rows, [ROOT], ROOT);
    forall p | Chain(rows, p, ROOT)
      ensures x !in p
    {
      ChainUnique(rows, p, [ROOT], ROOT);
    }
  }

  // ---- Removing subtrees one after the other ----

  ghost function WithoutTrees(rows: Rows, roots: set<nat>): Rows {
    map y | y in rows && (forall c :: c in roots ==> !Below(rows, c, y)) :: rows[y]
  }

  ghost function ChainOf(rows: Rows, x: nat): (p: seq<nat>)
    requires Rooted(rows) && x in rows
    ensures Chain(rows, p, x) && |p| <= |rows|
  {
    var p :| Chain(rows, p, x);
    ChainShort(rows, p, x);
    p
  }

  /** Being below a row means the same in what is left. */
  ghost predicate SameBelow(rows: Rows, left: Rows) {
    forall c, y :: y in left ==> (Below(left, c, y) <==> Below(rows, c, y))
  }

  lemma OneMoreTree(rows: Rows, left: Rows, gone: set<nat>, c: nat)
    requires left == WithoutTrees(rows, gone) && Rooted(left) && SameBelow(rows, left) && c in left && c != ROOT
    ensures WithoutTree(left, c) == WithoutTrees(rows, gone + {c})
    ensures Rooted(WithoutTree(left, c)) && SameBelow(rows, WithoutTree(left, c))
  {
    TreeRemoved(left, c);
    hide Below, Rooted;
  }

  lemma SiblingsApart(rows: Rows, x: nat, a: nat, b: nat)
    requires Rooted(rows) && a in rows && b in rows && a != ROOT && b != ROOT && rows[a].parent == x
        && rows[b].parent == x && a != b
    ensures !Below(rows, a, b) && !Below(rows, a, x)
  {
    var p := ChainOf(rows, x);
    ChainLonger(rows, p, x, a);
    ChainLonger(rows, p, x, b);
    ChainDistinct(rows, p + [a], a);
    assert a !in p by {
      assert forall k :: 0 <= k < |p| ==> (p + [a])[k] == p[k];
    }
    forall q | Chain(rows, q, b)
      ensures a !in q
    {
      ChainUnique(rows, q, p + [b], b);
    }
    forall q | Chain(rows, q, x)
      ensures a !in q
    {
      ChainUnique(rows, q, p, x);
    }
  }

  lemma ParentAbove(rows: Rows, x: nat, c: nat)
    requires Rooted(rows) && c in rows && c != ROOT && rows[c].parent == x
    ensures x in rows && !Below(rows, c, x) && |ChainOf(rows, c)| == |ChainOf(rows, x)| + 1
  {
    var p := ChainOf(rows, x);
    ChainLonger(rows, p, x, c);
    ChainUnique(rows, ChainOf(rows, c), p + [c], c);
    ChainDistinct(rows, p + [c], c);
    forall q | Chain(rows, q, x)
      ensures c !in q
    {
      ChainUnique(rows, q, p, x);
      assert forall k :: 0 <= k < |p| ==> (p + [c])[k] == p[k];
    }
  }

  /** Removing the subtrees of all children and then the row itself removes the subtree. */
  lemma ChildrenThenRow(rows: Rows, x: nat, children: set<nat>)
    requires Rooted(rows) && x in rows && x != ROOT
    requires forall c :: c in children <==> c in rows && c != ROOT && rows[c].parent == x
    ensures WithoutTrees(rows, children) - {x} == WithoutTree(rows, x)
  {
    forall y | y in rows
      ensures Below(rows, x, y) <==> y == x || exists c :: c in children && Below(rows, c, y)
    {
      BelowSteps(rows, x, y);
      hide Below;
    }
    hide Below, Rooted;
  }

  lemma ChainLeft(rows: Rows, left: Rows, x: nat)
    requires Rooted(rows) && Rooted(left) && x in rows && x in left
    requires forall y :: y in left ==> y in rows && left[y] == rows[y]
    ensures |ChainOf(left, x)| == |ChainOf(rows, x)|
  {
    assert Chain(rows, ChainOf(left, x), x);
    ChainUnique(rows, ChainOf(left, x), ChainOf(rows, x), x);
  }
}
