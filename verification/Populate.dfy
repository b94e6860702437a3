/** Filling a folder of the mounted drive with its remote children, which are fetched without holding the lock. */
module Populate {
  import opened Inodes
  import opened InodeTree
  import opened Wrappers

  /** A remote child; its name may be one that cannot be decrypted. */
  datatype Listed = Listed(node: string, name: Option<string>, isDir: bool, volume: string, link: string)

  function WithNode(rows: Rows, node: string): set<nat> {
    set x | x in rows && rows[x].ids.node == Some(node)
  }

  function NewRow(parent: nat, child: Listed): Row
    requires child.name.Some?
  {
    Row(parent, child.name.value, child.isDir, Ids(Some(child.node), Some(child.volume), Some(child.link)))
  }

  /** A child whose node has a row already keeps it, wherever that is; any other that has a name gets a new row under
      `parent`. */
  function WithChild(t: Table, parent: nat, child: Listed): Table {
    if WithNode(t.rows, child.node) != {} || child.name.None? then t
    else Table(t.rows[t.nextIno := NewRow(parent, child)], t.nextIno + 1)
  }

  function Populated(t: Table, parent: nat, children: seq<Listed>): Table {
    if children == [] then t
    else WithChild(Populated(t, parent, children[..|children| - 1]), parent, children[|children| - 1])
  }

  predicate IsFolder(rows: Rows, x: nat) {
    x in rows && rows[x].isDir
  }

  /** Nothing old changes, and what is new has `parent` as its parent. */
  lemma {:induction false} PopulatedRows(t: Table, parent: nat, children: seq<Listed>)
    requires Numbered(t) && parent < t.nextIno
    ensures var u := Populated(t, parent, children);
            && Numbered(u) && u.nextIno >= t.nextIno
            && (forall x :: x in t.rows ==> x in u.rows && u.rows[x] == t.rows[x])
            && (forall x :: x in u.rows && x !in t.rows ==> x >= t.nextIno && u.rows[x].parent == parent)
            && (u == t <==> u.nextIno == t.nextIno)
            && (u != t ==> exists x :: x in u.rows && x !in t.rows)
  {
    if children != [] {
      var front := children[..|children| - 1];
      PopulatedRows(t, parent, front);
      hide Populated, NewRow;
      var (u, last) := (Populated(t, parent, front), children[|children| - 1]);
      assert Populated(t, parent, children) == WithChild(u, parent, last) by {
        PopulatedSnoc(t, parent, children);
      }
      if WithNode(u.rows, last.node) == {} && last.name.Some? {
        var v := WithChild(u, parent, last);
        assert NewRow(parent, last).parent == parent by {
          NewRowParent(parent, last);
        }
        assert u.nextIno in v.rows && u.nextIno !in t.rows;
      }
    }
  }

  lemma PopulatedSnoc(t: Table, parent: nat, children: seq<Listed>)
    requires children != []
    ensures Populated(t, parent, children)
         == WithChild(Populated(t, parent, children[..|children| - 1]), parent, children[|children| - 1])
  {
  }

  lemma NewRowParent(parent: nat, child: Listed)
    requires child.name.Some?
    ensures NewRow(parent, child).parent == parent
  {
  }

  lemma {:induction false} PopulatedRooted(t: Table, parent: nat, children: seq<Listed>)
    requires Numbered(t) && parent < t.nextIno && Rooted(t.rows) && IsFolder(t.rows, parent)
    ensures Rooted(Populated(t, parent, children).rows)
  {
    hide Rooted;
    if children != [] {
      var front := children[..|children| - 1];
      PopulatedRooted(t, parent, front);
      PopulatedRows(t, parent, front);
      var (u, last) := (Populated(t, parent, front), children[|children| - 1]);
      if last.name.Some? {
        AddLeaf(u.rows, u.nextIno, NewRow(parent, last));
      }
    }
  }

  /** The folder may have been deleted, or replaced by a file's row, since its children were asked for. The tree
      is kept exactly if the folder is still there, or there is nothing new to insert. */
  lemma PopulateKeepsTree(t: Table, parent: nat, children: seq<Listed>)
    requires Numbered(t) && parent < t.nextIno && Rooted(t.rows)
    ensures Rooted(Populated(t, parent, children).rows) <==>
              IsFolder(t.rows, parent) || Populated(t, parent, children) == t
  {
    var u := Populated(t, parent, children);
    PopulatedRows(t, parent, children);
    if IsFolder(t.rows, parent) {
      PopulatedRooted(t, parent, children);
    } else if u != t {
      hide Populated;
      var x :| x in u.rows && x !in t.rows;
      assert x != ROOT && u.rows[x].parent == parent && !IsFolder(u.rows, parent);
    }
  }

  /** The children that are remote no more and neither changed nor queued. */
  function Stale(rows: Rows, parent: nat, children: seq<Listed>, kept: set<nat>): set<nat> {
    set x | x in Children(rows, parent) && rows[x].ids.node.Some? && x !in kept
            && forall k :: 0 <= k < |children| ==> rows[x].ids.node.value != children[k].node
  }

  /** With the folder gone, nothing is stale: what is under it was just listed. */
  lemma {:induction false} NewIsListed(t: Table, parent: nat, children: seq<Listed>)
    requires Numbered(t) && parent < t.nextIno
    ensures var u := Populated(t, parent, children);
            forall x :: x in u.rows && x !in t.rows ==>
              exists k :: 0 <= k < |children| && u.rows[x].ids.node == Some(children[k].node)
  {
    if children != [] {
      var front := children[..|children| - 1];
      NewIsListed(t, parent, front);
      var u := Populated(t, parent, front);
      var v := Populated(t, parent, children);
      forall x | x in v.rows && x !in t.rows
        ensures exists k :: 0 <= k < |children| && v.rows[x].ids.node == Some(children[k].node)
      {
        if x in u.rows && v.rows[x] == u.rows[x] {
          var k :| 0 <= k < |front| && u.rows[x].ids.node == Some(front[k].node);
          assert children[k] == front[k];
        } else {
          assert v.rows[x].ids.node == Some(children[|children| - 1].node);
        }
      }
    }
  }

  lemma NothingStale(t: Table, parent: nat, children: seq<Listed>, kept: set<nat>)
    requires Numbered(t) && parent < t.nextIno && parent != ROOT && Rooted(t.rows) && !IsFolder(t.rows, parent)
    ensures Stale(Populated(t, parent, children).rows, parent, children, kept) == {}
  {
    PopulatedRows(t, parent, children);
    NewIsListed(t, parent, children);
    hide Populated;
  }

  /** The second half of `populate_folder_children`, with the lock held again. */
  method PopulateFolder(db: FuseDb, parent: nat, children: seq<Listed>, kept: set<nat>)
    requires Numbered(db.Contents()) && Rooted(db.rows) && parent < db.nextIno && parent != ROOT
    modifies db
    ensures var u := Populated(old(db.Contents()), parent, children);
            && db.rows == WithoutTrees(u.rows, Stale(u.rows, parent, children, kept)) && db.nextIno == u.nextIno
            && (Rooted(db.rows) <==> IsFolder(old(db.rows), parent) || u == old(db.Contents()))
    ensures db.queue == old(db.queue)
  {
    InsertChildren(db, parent, children);
    ghost var u := db.Contents();
    PopulateKeepsTree(old(db.Contents()), parent, children);
    var stale := Stale(db.rows, parent, children, kept);
    if stale != {} {
      if !IsFolder(old(db.rows), parent) {
        NothingStale(old(db.Contents()), parent, children, kept);
      }
      RemoveTrees(db, parent, stale);
    } else {
      NoTrees(db.rows, stale);
    }
  }

  lemma NoTrees(rows: Rows, none: set<nat>)
    requires none == {}
    ensures WithoutTrees(rows, none) == rows
  {
  }

  method InsertChildren(db: FuseDb, parent: nat, children: seq<Listed>)
    modifies db`rows, db`nextIno
    ensures db.Contents() == Populated(old(db.Contents()), parent, children)
  {
    for k := 0 to |children|
      invariant db.Contents() == Populated(old(db.Contents()), parent, children[..k])
    {
      assert children[..k + 1][..k] == children[..k];
      if WithNode(db.rows, children[k].node) == {} && children[k].name.Some? {
        var _ := db.Insert(NewRow(parent, children[k]));
      }
    }
    assert children[..|children|] == children;
  }

  /** Deletes the subtrees of some siblings, one after the other. */
  method RemoveTrees(db: FuseDb, parent: nat, stale: set<nat>)
    requires Rooted(db.rows) && parent != ROOT && stale <= Children(db.rows, parent)
    modifies db`rows
    ensures Rooted(db.rows) && db.rows == WithoutTrees(old(db.rows), stale)
  {
    ghost var was := db.rows;
    var left := stale;
    Beginning(was, stale);
    hide *;
    while left != {}
      invariant left <= stale && db.rows == WithoutTrees(was, stale - left)
      invariant Rooted(db.rows) && SameBelow(was, db.rows)
      decreases left
    {
      var c :| c in left;
      OneMoreStale(was, db.rows, parent, stale, left, c);
      db.RemoveInodeTree(c);
      left := left - {c};
    }
    assert stale - left == stale;
  }

  lemma Beginning(rows: Rows, stale: set<nat>)
    ensures rows == WithoutTrees(rows, stale - stale) && SameBelow(rows, rows)
  {
  }

  lemma OneMoreStale(rows: Rows, now: Rows, parent: nat, stale: set<nat>, left: set<nat>, c: nat)
    requires Rooted(rows) && parent != ROOT && stale <= Children(rows, parent) && left <= stale && c in left
    requires now == WithoutTrees(rows, stale - left) && Rooted(now) && SameBelow(rows, now)
    ensures c in now && c != ROOT
    ensures WithoutTree(now, c) == WithoutTrees(rows, stale - (left - {c}))
    ensures Rooted(WithoutTree(now, c)) && SameBelow(rows, WithoutTree(now, c))
  {
    hide Below, SameBelow;
    forall s | s in stale - left
      ensures !Below(rows, s, c)
    {
      SiblingsApart(rows, parent, s, c);
    }
    hide Rooted;
    OneMoreTree(rows, now, stale - left, c);
    assert (stale - left) + {c} == stale - (left - {c});
  }
}
