/** The walk from a node up to its root, with loop detection. */
module Hierarchy {
  import opened Collections
  import opened Wrappers

  type Uid = string

  /** The nodes that can be fetched, each with its parent; fetching any other uid fails. */
  type Nodes = map<Uid, Option<Uid>>

  datatype Result = Ok(path: seq<Uid>) | LoopDetected(uid: Uid) | FetchFailed(uid: Uid)

  /** The `n`-th ancestor; nothing above a root or above a node that cannot be fetched. */
  function Ancestor(nodes: Nodes, uid: Uid, n: nat): Option<Uid> {
    if n == 0 then Some(uid)
    else
      var below := Ancestor(nodes, uid, n - 1);
      if below.Some? && below.value in nodes then nodes[below.value] else None
  }

  /** From the root down to the node, each the parent of the next. */
  predicate IsHierarchy(nodes: Nodes, p: seq<Uid>, uid: Uid) {
    && |p| > 0 && p[|p| - 1] == uid
    && (forall k :: 0 <= k < |p| ==> p[k] in nodes)
    && nodes[p[0]] == None
    && forall k :: 0 < k < |p| ==> nodes[p[k]] == Some(p[k - 1])
  }

  ghost predicate Repeats(nodes: Nodes, uid: Uid, i: nat, j: nat) {
    i < j && Ancestor(nodes, uid, i).Some? && Ancestor(nodes, uid, i) == Ancestor(nodes, uid, j)
  }

  ghost predicate Cycles(nodes: Nodes, uid: Uid) {
    exists i: nat, j: nat :: Repeats(nodes, uid, i, j)
  }

  lemma {:induction false} AncestorInHierarchy(nodes: Nodes, p: seq<Uid>, uid: Uid, n: nat)
    requires IsHierarchy(nodes, p, uid)
    ensures Ancestor(nodes, uid, n) == if n < |p| then Some(p[|p| - 1 - n]) else None
  {
    if n > 0 {
      AncestorInHierarchy(nodes, p, uid, n - 1);
    }
  }

  lemma {:induction false} AncestorsOnward(nodes: Nodes, uid: Uid, i: nat, j: nat, n: nat)
    requires Ancestor(nodes, uid, i) == Ancestor(nodes, uid, j)
    ensures Ancestor(nodes, uid, i + n) == Ancestor(nodes, uid, j + n)
  {
    if n > 0 {
      AncestorsOnward(nodes, uid, i, j, n - 1);
      assert (i + n) - 1 == i + (n - 1) && (j + n) - 1 == j + (n - 1);
    }
  }

  /** A chain that ends at a root never comes back to a node. */
  lemma HierarchyExcludesCycle(nodes: Nodes, p: seq<Uid>, uid: Uid)
    requires IsHierarchy(nodes, p, uid)
    ensures Distinct(p) && !Cycles(nodes, uid)
  {
    forall i: nat, j: nat | i < j && Ancestor(nodes, uid, i).Some?
      ensures Ancestor(nodes, uid, i) != Ancestor(nodes, uid, j)
    {
      AncestorInHierarchy(nodes, p, uid, i);
      if Ancestor(nodes, uid, i) == Ancestor(nodes, uid, j) {
        var rest := |p| - i;
        AncestorsOnward(nodes, uid, i, j, rest - 1);
        AncestorInHierarchy(nodes, p, uid, i + (rest - 1));
        AncestorInHierarchy(nodes, p, uid, j + (rest - 1));
      }
    }
    forall a, b | 0 <= a < b < |p|
      ensures p[a] != p[b]
    {
      AncestorInHierarchy(nodes, p, uid, |p| - 1 - a);
      AncestorInHierarchy(nodes, p, uid, |p| - 1 - b);
    }
  }

  ghost predicate BreaksAt(nodes: Nodes, uid: Uid, n: nat) {
    Ancestor(nodes, uid, n).Some? && Ancestor(nodes, uid, n).value !in nodes
  }

  /** The chain reaches a node that cannot be fetched. */
  ghost predicate Breaks(nodes: Nodes, uid: Uid) {
    exists n: nat :: BreaksAt(nodes, uid, n)
  }

  /** Nor does a chain that breaks off at a node that cannot be fetched. */
  lemma BrokenExcludesOthers(nodes: Nodes, uid: Uid, n: nat)
    requires BreaksAt(nodes, uid, n)
    ensures !Cycles(nodes, uid) && forall p :: !IsHierarchy(nodes, p, uid)
  {
    forall p | IsHierarchy(nodes, p, uid)
      ensures false
    {
      AncestorInHierarchy(nodes, p, uid, n);
    }
    forall i: nat, j: nat | i < j && Ancestor(nodes, uid, i).Some?
      ensures Ancestor(nodes, uid, i) != Ancestor(nodes, uid, j)
    {
      if Ancestor(nodes, uid, i) == Ancestor(nodes, uid, j) {
        NothingAbove(nodes, uid, n, i);
        AncestorsOnward(nodes, uid, i, j, n - i);
        NothingAbove(nodes, uid, n, j + (n - i));
      }
    }
  }

  lemma {:induction false} NothingAbove(nodes: Nodes, uid: Uid, n: nat, m: nat)
    requires BreaksAt(nodes, uid, n)
    ensures m > n ==> Ancestor(nodes, uid, m).None?
    decreases m
  {
    if m > n + 1 {
      NothingAbove(nodes, uid, n, m - 1);
    }
  }

  /** Ends for every finite set of nodes. It gives the duplicate-free chain from the root down to the node
      exactly when there is one, a loop error exactly when the chain comes back to a node, and a fetch error
      exactly when the chain reaches a node that cannot be fetched. */
  method GetNodeHierarchy(nodes: Nodes, uid: Uid) returns (r: Result)
    ensures r.Ok? <==> exists p :: IsHierarchy(nodes, p, uid)
    ensures r.Ok? ==> IsHierarchy(nodes, r.path, uid) && Distinct(r.path)
    ensures r.LoopDetected? <==> Cycles(nodes, uid)
    ensures r.FetchFailed? <==> Breaks(nodes, uid)
  {
    var hierarchy: seq<Uid> := [];
    var next := Some(uid);
    hide *;
    NothingElse(nodes, uid);
    NoneVisited(nodes, uid);
    while next.Some?
      invariant next == Ancestor(nodes, uid, |hierarchy|)
      invariant Visited(nodes, uid, hierarchy)
      invariant next.None? ==> hierarchy != []
      invariant |hierarchy| <= |nodes|
      decreases |nodes| - |hierarchy|, next.Some?
    {
      var u := next.value;
      if u in hierarchy {
        CameBack(nodes, uid, hierarchy);
        return LoopDetected(u);
      }
      if u !in nodes {
        Broken(nodes, uid, |hierarchy|);
        return FetchFailed(u);
      }
      OneMore(nodes, uid, hierarchy);
      next := nodes[u];
      hierarchy := hierarchy + [u];
    }
    Completed(nodes, uid, hierarchy);
    return Ok(Reversed(hierarchy));
  }

  /** The ancestors met so far, all different and all fetched. */
  predicate Visited(nodes: Nodes, uid: Uid, hierarchy: seq<Uid>) {
    && Distinct(hierarchy)
    && forall k :: 0 <= k < |hierarchy| ==> hierarchy[k] in nodes && Ancestor(nodes, uid, k) == Some(hierarchy[k])
  }

  lemma NoneVisited(nodes: Nodes, uid: Uid)
    ensures Visited(nodes, uid, []) && Ancestor(nodes, uid, 0) == Some(uid)
  {
  }

  lemma OneMore(nodes: Nodes, uid: Uid, hierarchy: seq<Uid>)
    requires Visited(nodes, uid, hierarchy)
    requires var u := Ancestor(nodes, uid, |hierarchy|); u.Some? && u.value in nodes && u.value !in hierarchy
    ensures var u := Ancestor(nodes, uid, |hierarchy|).value;
            && Visited(nodes, uid, hierarchy + [u]) && Ancestor(nodes, uid, |hierarchy| + 1) == nodes[u]
            && |hierarchy| + 1 <= |nodes|
  {
    var u := Ancestor(nodes, uid, |hierarchy|).value;
    DistinctCount(hierarchy + [u], nodes.Keys);
    assert |nodes.Keys| == |nodes|;
  }

  lemma CameBack(nodes: Nodes, uid: Uid, hierarchy: seq<Uid>)
    requires Visited(nodes, uid, hierarchy)
    requires var u := Ancestor(nodes, uid, |hierarchy|); u.Some? && u.value in hierarchy
    ensures Cycles(nodes, uid)
  {
    var i :| 0 <= i < |hierarchy| && hierarchy[i] == Ancestor(nodes, uid, |hierarchy|).value;
    assert Repeats(nodes, uid, i, |hierarchy|);
  }

  lemma Broken(nodes: Nodes, uid: Uid, n: nat)
    requires Ancestor(nodes, uid, n).Some? && Ancestor(nodes, uid, n).value !in nodes
    ensures Breaks(nodes, uid)
  {
    assert BreaksAt(nodes, uid, n);
  }

  lemma Completed(nodes: Nodes, uid: Uid, hierarchy: seq<Uid>)
    requires |hierarchy| > 0 && Ancestor(nodes, uid, |hierarchy|) == None
    requires Visited(nodes, uid, hierarchy)
    ensures IsHierarchy(nodes, Reversed(hierarchy), uid) && Distinct(Reversed(hierarchy))
  {
    var path := Reversed(hierarchy);
    forall k | 0 < k < |path|
      ensures nodes[path[k]] == Some(path[k - 1])
    {
      assert Ancestor(nodes, uid, |path| - k) == Some(path[k - 1]);
    }
    HierarchyExcludesCycle(nodes, path, uid);
  }

  /** The three outcomes exclude each other. */
  lemma NothingElse(nodes: Nodes, uid: Uid)
    ensures Cycles(nodes, uid) || Breaks(nodes, uid) ==> forall p :: !IsHierarchy(nodes, p, uid)
    ensures Breaks(nodes, uid) ==> !Cycles(nodes, uid)
  {
    if p :| IsHierarchy(nodes, p, uid) {
      HierarchyExcludesCycle(nodes, p, uid);
    }
    if Breaks(nodes, uid) {
      var n: nat :| BreaksAt(nodes, uid, n);
      BrokenExcludesOthers(nodes, uid, n);
    }
  }
}
