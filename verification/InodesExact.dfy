/** What the inode table's queries find and what the migrations and the listing of a folder leave, row by row. */
module InodesExact {
  import opened Inodes
  import opened InodeTree
  import opened Populate
  import opened Wrappers

  // ---- Queries ----

  predicate IsNamed(rows: Rows, parent: nat, name: string, x: nat) {
    x in rows && rows[x].parent == parent && rows[x].name == name
  }

  /** A lookup finds the lowest row of that name in the folder, if there is one. */
  lemma LookupExactly(rows: Rows, parent: nat, name: string)
    ensures match LookupChild(rows, parent, name)
            case None => forall x :: !IsNamed(rows, parent, name, x)
            case Some(x) => IsNamed(rows, parent, name, x) && forall y :: IsNamed(rows, parent, name, y) ==> x <= y
  {
    assert forall x :: x in Named(rows, parent, name) <==> IsNamed(rows, parent, name, x);
    hide IsNamed;
  }

  /** Nothing can be made, renamed or deleted right under the root, nor in its folder for computers. */
  lemma ProtectedExactly(rows: Rows, parent: nat)
    ensures Protected(rows, parent) <==>
              || parent == 1
              || (IsNamed(rows, 1, "Computers", parent) && forall y :: IsNamed(rows, 1, "Computers", y) ==> parent <= y)
  {
    LookupExactly(rows, 1, "Computers");
    hide IsNamed, LookupChild;
  }

  // ---- The migrations ----

  /** The row the root has afterwards, before it loses its identity. */
  function RootBefore(t: Table): Row {
    if 1 in t.rows then t.rows[1] else Row(1, "", true, NO_IDS)
  }

  /** The least id that is free for sure. */
  function NextFree(t: Table): nat {
    if 1 in t.rows || t.nextIno > 1 then t.nextIno else 2
  }

  predicate Misplaced(row: Row) {
    row.parent == 1 && row.name != "MyFiles" && row.name != "Computers"
  }

  lemma RootedFirst(t: Table)
    requires Numbered(t) && RootRow(t.rows)
    ensures WithRoot(t).rows == t.rows[1 := RootBefore(t)] && WithRoot(t).nextIno == NextFree(t)
    ensures RootBefore(t).name == "" && RootBefore(t).parent == 1
    ensures forall name: string, x :: name != "" ==>
              (IsNamed(WithRoot(t).rows, 1, name, x) <==> IsNamed(t.rows, 1, name, x))
  {
  }

  /** The migration finds the lowest `MyFiles` under the root, or adds one under the next free id. Every entry under the
      root of another name than `MyFiles` and `Computers` moves there. The root loses its remote identity, which goes to
      that folder unless it has a node of its own; nothing else changes. */
  lemma MigrationExactly(t: Table)
    requires Numbered(t) && RootRow(t.rows)
    ensures var (after, m) := MyFilesEnsured(t);
            var found := exists x :: IsNamed(t.rows, 1, "MyFiles", x);
            var ids := RootBefore(t).ids;
            && after.rows.Keys == t.rows.Keys + {1, m}
            && after.rows[1] == RootBefore(t).(ids := Ids(None, None, None))
            && (if found then
                  && IsNamed(t.rows, 1, "MyFiles", m) && (forall y :: IsNamed(t.rows, 1, "MyFiles", y) ==> m <= y)
                  && after.nextIno == NextFree(t)
                  && after.rows[m]
                     == t.rows[m].(ids := if HasIds(ids) && t.rows[m].ids.node.None? then ids else t.rows[m].ids)
                else
                  && m == NextFree(t) && after.nextIno == m + 1
                  && after.rows[m] == Row(1, "MyFiles", true, if HasIds(ids) then ids else Ids(None, None, None)))
            && forall x :: x in t.rows && x != 1 && x != m ==>
                 after.rows[x] == if Misplaced(t.rows[x]) then t.rows[x].(parent := m) else t.rows[x]
  {
    RootedFirst(t);
    Lengths();
    var w := WithRoot(t);
    LookupExactly(w.rows, 1, "MyFiles");
    hide LookupChild, WithRoot;
    var (after, m) := MyFilesEnsured(t);
    var before := if LookupChild(w.rows, ROOT, MY_FILES).Some? then w.rows
                  else w.rows[w.nextIno := Row(ROOT, MY_FILES, true, NO_IDS)];
    assert after.rows == Reparented(IdsMoved(before, m), m);
    MovedExactly(before, m);
    if LookupChild(w.rows, ROOT, MY_FILES).Some? {
      assert IsNamed(t.rows, 1, "MyFiles", m);
    }
  }

  lemma Lengths()
    ensures "MyFiles" != "" && "Computers" != "" && "MyFiles" != "Computers"
  {
    assert |"MyFiles"| == 7 && |"Computers"| == 9;
  }

  lemma MovedExactly(before: Rows, m: nat)
    requires ROOT in before && m in before && m != ROOT && before[ROOT].parent == ROOT && before[m].parent == ROOT
    requires before[m].name == "MyFiles"
    ensures var (after, ids) := (Reparented(IdsMoved(before, m), m), before[ROOT].ids);
            && after.Keys == before.Keys && after[ROOT] == before[ROOT].(ids := NO_IDS)
            && after[m] == before[m].(ids := if HasIds(ids) && before[m].ids.node.None? then ids else before[m].ids)
            && forall x :: x in before && x != ROOT && x != m ==>
                 after[x] == if Misplaced(before[x]) then before[x].(parent := m) else before[x]
  {
  }

  /** The folder for computers is the lowest of that name under the root, or is added under the next free id; but for
      the root nothing else is added or changed. */
  lemma ComputersExactly(t: Table)
    requires Numbered(t) && RootRow(t.rows)
    ensures var (after, c) := ComputersEnsured(t);
            if exists x :: IsNamed(t.rows, 1, "Computers", x) then
              && IsNamed(t.rows, 1, "Computers", c) && (forall y :: IsNamed(t.rows, 1, "Computers", y) ==> c <= y)
              && after == Table(t.rows[1 := RootBefore(t)], NextFree(t))
            else
              && c == NextFree(t)
              && after.nextIno == c + 1
              && after.rows == t.rows[1 := RootBefore(t)][c := Row(1, "Computers", true, Ids(None, None, None))]
  {
    RootedFirst(t);
    Lengths();
    LookupExactly(WithRoot(t).rows, 1, "Computers");
    hide LookupChild, WithRoot;
    var (after, c) := ComputersEnsured(t);
    if LookupChild(WithRoot(t).rows, ROOT, COMPUTERS).Some? {
      assert IsNamed(t.rows, 1, "Computers", c);
    }
  }

  // ---- Listing a folder ----

  predicate HasNode(rows: Rows, x: nat, node: string) {
    x in rows && rows[x].ids.node == Some(node)
  }

  /** The row of a listed child. */
  predicate RowOf(row: Row, parent: nat, child: Listed) {
    && row.parent == parent && child.name == Some(row.name) && row.isDir == child.isDir
    && row.ids.node == Some(child.node) && row.ids.volume == Some(child.volume) && row.ids.link == Some(child.link)
  }

  ghost predicate AnyHasNode(rows: Rows, node: string) {
    exists x :: HasNode(rows, x, node)
  }

  /** No row changes; every listed node with a name has a row afterwards; and each new row is that of a listed child
      whose node had none, namely of the first one with that node and a name. */
  ghost predicate ListedInto(t: Table, parent: nat, children: seq<Listed>, u: Table) {
    && (forall x :: x in t.rows ==> x in u.rows && u.rows[x] == t.rows[x])
    && (forall k :: 0 <= k < |children| && children[k].name.Some? ==> AnyHasNode(u.rows, children[k].node))
    && (forall x :: x in u.rows && x !in t.rows ==> x >= t.nextIno && NewFor(t, u.rows[x], parent, children))
    && (forall x, y :: x in u.rows && y in u.rows && x !in t.rows && y !in t.rows && x != y ==>
          u.rows[x].ids.node != u.rows[y].ids.node)
    && Numbered(u) && u.nextIno >= t.nextIno && (forall x :: t.nextIno <= x < u.nextIno ==> x in u.rows)
  }

  ghost predicate NewFor(t: Table, row: Row, parent: nat, children: seq<Listed>) {
    exists k :: 0 <= k < |children| && RowOf(row, parent, children[k]) && !AnyHasNode(t.rows, children[k].node)
                && forall i :: 0 <= i < k ==> children[i].node != children[k].node || children[i].name.None?
  }

  lemma NewForMore(t: Table, row: Row, parent: nat, front: seq<Listed>, last: Listed)
    requires NewFor(t, row, parent, front)
    ensures NewFor(t, row, parent, front + [last])
  {
    var k :| 0 <= k < |front| && RowOf(row, parent, front[k]) && !AnyHasNode(t.rows, front[k].node)
             && forall i :: 0 <= i < k ==> front[i].node != front[k].node || front[i].name.None?;
    assert (front + [last])[k] == front[k];
  }

  lemma WithNodeExactly(rows: Rows, node: string)
    ensures WithNode(rows, node) != {} <==> AnyHasNode(rows, node)
  {
    if x :| x in WithNode(rows, node) {
      assert HasNode(rows, x, node);
    }
    if x :| HasNode(rows, x, node) {
      assert x in WithNode(rows, node);
    }
  }

  lemma AnyKept(rows: Rows, after: Rows, node: string)
    requires AnyHasNode(rows, node) && forall x :: x in rows ==> x in after && after[x] == rows[x]
    ensures AnyHasNode(after, node)
  {
    var x :| HasNode(rows, x, node);
    assert HasNode(after, x, node);
  }

  lemma OneListed(t: Table, parent: nat, front: seq<Listed>, last: Listed, u: Table)
    requires ListedInto(t, parent, front, u)
    ensures ListedInto(t, parent, front + [last], WithChild(u, parent, last))
  {
    hide AnyHasNode, WithNode, NewFor, RowOf;
    WithNodeExactly(u.rows, last.node);
    OnlyOneNew(t, parent, front, last, u);
    var (children, v) := (front + [last], WithChild(u, parent, last));
    forall k | 0 <= k < |children| && children[k].name.Some?
      ensures AnyHasNode(v.rows, children[k].node)
    {
      AllHaveNodes(t, parent, front, last, u, k);
    }
    forall x | x in v.rows && x !in t.rows
      ensures x >= t.nextIno && NewFor(t, v.rows[x], parent, children)
    {
      if x in u.rows {
        NewForMore(t, u.rows[x], parent, front, last);
      } else {
        NewIsFor(t, parent, front, last, u, v.rows[x]);
      }
    }
  }

  lemma AllHaveNodes(t: Table, parent: nat, front: seq<Listed>, last: Listed, u: Table, k: nat)
    requires ListedInto(t, parent, front, u) && k <= |front| && (front + [last])[k].name.Some?
    ensures AnyHasNode(WithChild(u, parent, last).rows, (front + [last])[k].node)
  {
    hide NewFor, WithNode;
    WithNodeExactly(u.rows, last.node);
    var v := WithChild(u, parent, last);
    if k == |front| && !AnyHasNode(u.rows, last.node) {
      assert HasNode(v.rows, u.nextIno, last.node);
    } else {
      hide AnyHasNode;
      AnyKept(u.rows, v.rows, (front + [last])[k].node);
    }
  }

  lemma NewIsFor(t: Table, parent: nat, front: seq<Listed>, last: Listed, u: Table, row: Row)
    requires ListedInto(t, parent, front, u) && !AnyHasNode(u.rows, last.node)
    requires last.name.Some? && row == NewRow(parent, last)
    ensures NewFor(t, row, parent, front + [last])
  {
    var children := front + [last];
    assert children[|front|] == last;
    if AnyHasNode(t.rows, last.node) {
      AnyKept(t.rows, u.rows, last.node);
    }
    hide AnyHasNode;
    forall i | 0 <= i < |front| && front[i].name.Some?
      ensures children[i].node != last.node
    {
      assert AnyHasNode(u.rows, front[i].node);
    }
  }

  lemma OnlyOneNew(t: Table, parent: nat, front: seq<Listed>, last: Listed, u: Table)
    requires ListedInto(t, parent, front, u)
    ensures var v := WithChild(u, parent, last);
            forall x, y :: x in v.rows && y in v.rows && x !in t.rows && y !in t.rows && x != y ==>
              v.rows[x].ids.node != v.rows[y].ids.node
  {
    var v := WithChild(u, parent, last);
    WithNodeExactly(u.rows, last.node);
    hide WithNode, NewFor;
    assert forall x :: x in u.rows && u.rows[x].ids.node == Some(last.node) ==> HasNode(u.rows, x, last.node);
  }

  /** Listing children inserts exactly the missing ones. */
  lemma {:induction false} PopulatedExactly(t: Table, parent: nat, children: seq<Listed>)
    requires Numbered(t)
    ensures ListedInto(t, parent, children, Populated(t, parent, children))
  {
    hide ListedInto, WithChild;
    if children == [] {
      NothingListed(t, parent);
    } else {
      var (front, last) := (children[..|children| - 1], children[|children| - 1]);
      assert children == front + [last];
      PopulatedExactly(t, parent, front);
      OneListed(t, parent, front, last, Populated(t, parent, front));
    }
  }

  lemma NothingListed(t: Table, parent: nat)
    requires Numbered(t)
    ensures ListedInto(t, parent, [], t)
  {
  }

  /** Of the rows in the folder exactly those go, with all below them, that have a node the listing does not have and
      are neither changed locally nor queued. */
  lemma StaleGoes(rows: Rows, parent: nat, children: seq<Listed>, kept: set<nat>, x: nat)
    requires Rooted(rows) && parent != ROOT && x in rows && rows[x].parent == parent && x != parent
    ensures x !in WithoutTrees(rows, Stale(rows, parent, children, kept)) <==>
              && rows[x].ids.node.Some? && x !in kept
              && forall k :: 0 <= k < |children| ==> children[k].node != rows[x].ids.node.value
  {
    var stale := Stale(rows, parent, children, kept);
    assert x in stale <==> (rows[x].ids.node.Some? && x !in kept
              && forall k :: 0 <= k < |children| ==> children[k].node != rows[x].ids.node.value);
    forall s | s in stale && s != x
      ensures !Below(rows, s, x)
    {
      SiblingsApart(rows, parent, s, x);
    }
    ChainEndsBelow(rows, x);
    hide Below, Stale, Rooted;
  }
}
