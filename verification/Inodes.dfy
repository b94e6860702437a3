/** The inode table as the mounted drive changes it: local file operations, remote deletions, and the
    migration that puts legacy root entries under `MyFiles`. */
module Inodes {
  import opened Collections
  import opened InodeTree
  import opened Wrappers

  datatype Table = Table(rows: Rows, nextIno: nat)

  const MY_FILES := "MyFiles"
  const COMPUTERS := "Computers"

  lemma {:induction false} LeastExists(s: set<nat>, x: nat)
    requires x in s
    ensures exists m :: m in s && forall k :: k in s ==> m <= k
    decreases x
  {
    if y :| y in s && y < x {
      LeastExists(s, y);
    }
  }

  lemma HasLeast(s: set<nat>)
    requires s != {}
    ensures exists m :: m in s && forall k :: k in s ==> m <= k
  {
    var x :| x in s;
    LeastExists(s, x);
  }

  /** A one-row query without an order: the scan meets the smallest id first. */
  function First(s: set<nat>): (r: Option<nat>)
    ensures r.None? <==> s == {}
    ensures r.Some? ==> r.value in s && forall k :: k in s ==> r.value <= k
  {
    if s == {} then None
    else
      HasLeast(s);
      var m :| m in s && forall k :: k in s ==> m <= k;
      Some(m)
  }

  function Children(rows: Rows, parent: nat): set<nat> {
    set x | x in rows && rows[x].parent == parent && x != parent
  }

  function Named(rows: Rows, parent: nat, name: string): set<nat> {
    set x | x in rows && rows[x].parent == parent && rows[x].name == name
  }

  function LookupChild(rows: Rows, parent: nat, name: string): (r: Option<nat>)
    ensures r.Some? ==> r.value in rows && rows[r.value].parent == parent && rows[r.value].name == name
  {
    First(Named(rows, parent, name))
  }

  predicate Protected(rows: Rows, parent: nat) {
    parent == ROOT || LookupChild(rows, ROOT, COMPUTERS) == Some(parent)
  }

  /** Nothing but `MyFiles` and `Computers` right under the root. */
  ghost predicate OnlyTopFolders(rows: Rows) {
    forall x :: x in rows && x != ROOT && rows[x].parent == ROOT ==>
        rows[x].name == MY_FILES || rows[x].name == COMPUTERS
  }

  ghost predicate Numbered(t: Table) {
    t.nextIno > 0 && forall x :: x in t.rows ==> 0 < x < t.nextIno
  }

  // ---- The MyFiles migration ----

  function WithRoot(t: Table): Table {
    if ROOT in t.rows then t
    else Table(t.rows[ROOT := Row(ROOT, "", true, NO_IDS)], if t.nextIno > ROOT then t.nextIno else ROOT + 1)
  }

  predicate HasIds(ids: Ids) {
    ids.node.Some? || ids.volume.Some? || ids.link.Some?
  }

  /** The root's remote identity belongs to `MyFiles`, which keeps its own if it has one. */
  function IdsMoved(rows: Rows, m: nat): Rows
    requires ROOT in rows && m in rows && m != ROOT
  {
    var ids := rows[ROOT].ids;
    if !HasIds(ids) then rows
    else
      var cleared := rows[ROOT := rows[ROOT].(ids := NO_IDS)];
      if rows[m].ids.node.None? then cleared[m := rows[m].(ids := ids)] else cleared
  }

  predicate Legacy(rows: Rows, m: nat, x: nat)
    requires x in rows
  {
    rows[x].parent == ROOT && x != ROOT && x != m && rows[x].name != MY_FILES && rows[x].name != COMPUTERS
  }

  function Reparented(rows: Rows, m: nat): Rows {
    map x | x in rows :: if Legacy(rows, m, x) then rows[x].(parent := m) else rows[x]
  }

  /** The root row as `insert_root` makes it; nothing renames or moves it. */
  predicate RootRow(rows: Rows) {
    ROOT in rows ==> rows[ROOT].parent == ROOT && rows[ROOT].name == "" && rows[ROOT].isDir
  }

  function MyFilesEnsured(t: Table): (r: (Table, nat))
    requires Numbered(t) && RootRow(t.rows)
  {
    var w := WithRoot(t);
    match LookupChild(w.rows, ROOT, MY_FILES)
    case Some(m) => (w.(rows := Reparented(IdsMoved(w.rows, m), m)), m)
    case None =>
      var m := w.nextIno;
      var added := w.rows[m := Row(ROOT, MY_FILES, true, NO_IDS)];
      (Table(Reparented(IdsMoved(added, m), m), m + 1), m)
  }

  function ComputersEnsured(t: Table): (Table, nat)
    requires Numbered(t) && RootRow(t.rows)
  {
    var w := WithRoot(t);
    match LookupChild(w.rows, ROOT, COMPUTERS)
    case Some(c) => (w, c)
    case None => (Table(w.rows[w.nextIno := Row(ROOT, COMPUTERS, true, NO_IDS)], w.nextIno + 1), w.nextIno)
  }

  /** The table right before legacy entries are moved: the root and its `MyFiles` exist. */
  function BeforeMoving(t: Table): Rows
    requires Numbered(t) && RootRow(t.rows)
  {
    var w := WithRoot(t);
    if LookupChild(w.rows, ROOT, MY_FILES).Some? then w.rows
    else w.rows[w.nextIno := Row(ROOT, MY_FILES, true, NO_IDS)]
  }

  lemma EnsuredShape(t: Table)
    requires Numbered(t) && RootRow(t.rows)
    ensures var (after, m) := MyFilesEnsured(t);
            && m != ROOT && m in BeforeMoving(t) && BeforeMoving(t)[m].parent == ROOT
                && BeforeMoving(t)[m].name == MY_FILES
            && after.rows == Reparented(IdsMoved(BeforeMoving(t), m), m)
            && Numbered(after) && RootRow(after.rows) && ROOT in after.rows
  {
  }

  /** The migration leaves only `MyFiles` and `Computers` under the root, moves every other entry there into
      the `MyFiles` it returns, hands it the root's remote identity, and changes nothing else. */
  lemma MigrationMoves(t: Table)
    requires Numbered(t) && RootRow(t.rows)
    ensures var (after, m) := MyFilesEnsured(t);
            && OnlyTopFolders(after.rows) && after.rows[ROOT].ids == NO_IDS
            && LookupChild(after.rows, ROOT, MY_FILES) == Some(m)
            && after.rows.Keys == BeforeMoving(t).Keys
            && (HasIds(BeforeMoving(t)[ROOT].ids) && BeforeMoving(t)[m].ids.node.None? ==>
                  after.rows[m].ids == BeforeMoving(t)[ROOT].ids)
            && forall x :: x in BeforeMoving(t) && x != ROOT ==>
                 && after.rows[x].name == BeforeMoving(t)[x].name && after.rows[x].isDir == BeforeMoving(t)[x].isDir
                 && (after.rows[x].parent == if Legacy(BeforeMoving(t), m, x) then m else BeforeMoving(t)[x].parent)
                 && (x != m ==> after.rows[x].ids == BeforeMoving(t)[x].ids)
  {
    EnsuredShape(t);
    var (after, m) := MyFilesEnsured(t);
    var before := BeforeMoving(t);
    MyFilesFound(t);
    hide MyFilesEnsured, BeforeMoving, LookupChild, WithRoot, Numbered;
    MovedRows(before, m);
    assert Named(after.rows, ROOT, MY_FILES) == Named(before, ROOT, MY_FILES);
    FoundAgain(before, after.rows, m);
  }

  lemma FoundAgain(before: Rows, after: Rows, m: nat)
    requires Named(after, ROOT, MY_FILES) == Named(before, ROOT, MY_FILES)
    requires LookupChild(before, ROOT, MY_FILES) == Some(m)
    ensures LookupChild(after, ROOT, MY_FILES) == Some(m)
  {
  }

  lemma MyFilesFound(t: Table)
    requires Numbered(t) && RootRow(t.rows)
    ensures LookupChild(BeforeMoving(t), ROOT, MY_FILES) == Some(MyFilesEnsured(t).1)
  {
    var w := WithRoot(t);
    if LookupChild(w.rows, ROOT, MY_FILES).None? {
      assert Named(BeforeMoving(t), ROOT, MY_FILES) == Named(w.rows, ROOT, MY_FILES) + {w.nextIno};
    }
  }

  lemma MovedRows(before: Rows, m: nat)
    requires ROOT in before && m in before && m != ROOT && before[ROOT].parent == ROOT
    ensures var after := Reparented(IdsMoved(before, m), m);
            && after.Keys == before.Keys && after[ROOT].ids == NO_IDS
            && after[ROOT].parent == ROOT && after[ROOT].name == before[ROOT].name
                && after[ROOT].isDir == before[ROOT].isDir
            && (HasIds(before[ROOT].ids) && before[m].ids.node.None? ==> after[m].ids == before[ROOT].ids)
            && forall x :: x in before && x != ROOT ==>
                 && after[x].name == before[x].name && after[x].isDir == before[x].isDir
                 && (after[x].parent == if Legacy(before, m, x) then m else before[x].parent)
                 && (x != m ==> after[x].ids == before[x].ids)
  {
  }

  /** Running it again changes nothing and finds the same folder. */
  lemma MigrationIdempotent(t: Table)
    requires Numbered(t) && RootRow(t.rows)
    ensures var (after, m) := MyFilesEnsured(t);
            Numbered(after) && RootRow(after.rows) && MyFilesEnsured(after) == (after, m)
  {
    EnsuredShape(t);
    MigrationMoves(t);
    hide LookupChild;
    var (after, m) := MyFilesEnsured(t);
    assert IdsMoved(after.rows, m) == after.rows;
    forall x | x in after.rows
      ensures !Legacy(after.rows, m, x)
    {
    }
    assert Reparented(after.rows, m) == after.rows;
  }

  lemma RootAdded(rows: Rows)
    requires rows == map[ROOT := Row(ROOT, "", true, NO_IDS)]
    ensures Rooted(rows)
  {
    assert Chain(rows, [ROOT], ROOT);
  }

  lemma SameParents(rows: Rows, after: Rows)
    requires Rooted(rows) && after.Keys == rows.Keys
    requires forall x :: x in rows ==> after[x].parent == rows[x].parent && after[x].isDir == rows[x].isDir
    ensures Rooted(after)
  {
    forall x | x in after
      ensures exists p :: Chain(after, p, x)
    {
      var p :| Chain(rows, p, x);
      assert Chain(after, p, x);
    }
  }

  lemma ReparentedChain(rows: Rows, m: nat, p: seq<nat>, y: nat)
    requires m in rows && m != ROOT && rows[m].parent == ROOT && Chain(rows, p, y)
    ensures exists q :: Chain(Reparented(rows, m), q, y)
  {
    var after := Reparented(rows, m);
    if |p| > 1 && Legacy(rows, m, p[1]) {
      assert Chain(after, [ROOT, m], m);
      forall k | 1 < k < |p|
        ensures after[p[k]].parent == rows[p[k]].parent
      {
        assert rows[p[k]].parent == p[k - 1];
      }
      Spliced(rows, after, [ROOT, m], p, m, y, 1);
    } else {
      assert Chain(after, p, y);
    }
  }

  /** On a tree it keeps the tree if and only if the existing `MyFiles` is a folder or no entry is moved. A
      legacy file of that name would become a parent. */
  lemma MigrationKeepsTree(t: Table)
    requires Numbered(t) && RootRow(t.rows) && (ROOT in t.rows ==> Rooted(t.rows))
        && (ROOT !in t.rows ==> t.rows == map[])
    ensures var (after, m) := MyFilesEnsured(t);
            m in BeforeMoving(t) &&
            (Rooted(after.rows)
             <==> BeforeMoving(t)[m].isDir || forall x :: x in BeforeMoving(t) ==> !Legacy(BeforeMoving(t), m, x))
  {
    EnsuredShape(t);
    TreeBefore(t);
    hide LookupChild, MyFilesEnsured, WithRoot, BeforeMoving, Numbered, Rooted;
    var (after, m) := MyFilesEnsured(t);
    var before := BeforeMoving(t);
    IdsMovedKeeps(before, m);
    ReparentKeepsTree(IdsMoved(before, m), m);
  }

  lemma IdsMovedKeeps(rows: Rows, m: nat)
    requires Rooted(rows) && m in rows && m != ROOT
    ensures Rooted(IdsMoved(rows, m)) && IdsMoved(rows, m).Keys == rows.Keys
    ensures forall x :: x in rows ==>
              && Legacy(IdsMoved(rows, m), m, x) == Legacy(rows, m, x)
              && IdsMoved(rows, m)[x].isDir == rows[x].isDir && IdsMoved(rows, m)[x].parent == rows[x].parent
  {
    var after := IdsMoved(rows, m);
    assert forall x :: x in rows ==>
        after[x].parent == rows[x].parent && after[x].isDir == rows[x].isDir && after[x].name == rows[x].name;
    hide Rooted, IdsMoved;
    SameParents(rows, after);
  }

  lemma TreeBefore(t: Table)
    requires Numbered(t) && RootRow(t.rows) && (ROOT in t.rows ==> Rooted(t.rows))
        && (ROOT !in t.rows ==> t.rows == map[])
    ensures Rooted(BeforeMoving(t))
  {
    var w := WithRoot(t);
    if ROOT !in t.rows {
      RootAdded(w.rows);
    }
    hide LookupChild;
    if LookupChild(w.rows, ROOT, MY_FILES).None? {
      AddLeaf(w.rows, w.nextIno, Row(ROOT, MY_FILES, true, NO_IDS));
    }
  }

  lemma ReparentKeepsTree(rows: Rows, m: nat)
    requires Rooted(rows) && m in rows && m != ROOT && rows[m].parent == ROOT
    ensures Rooted(Reparented(rows, m)) <==> rows[m].isDir || forall x :: x in rows ==> !Legacy(rows, m, x)
  {
    hide Chain;
    var after := Reparented(rows, m);
    forall y | y in after
      ensures exists p :: Chain(after, p, y)
    {
      var p :| Chain(rows, p, y);
      ReparentedChain(rows, m, p, y);
    }
    if x :| x in rows && Legacy(rows, m, x) {
      assert after[x].parent == m && x != ROOT;
    }
  }

  // ---- The mounted drive ----

  datatype Errno = EACCES | EEXIST | ENOENT | EISDIR | ENOTDIR | ENOTEMPTY | EIO

  datatype Reply = Done | Failed(errno: Errno)

  /** Changes queued for the remote side. */
  datatype Change =
    | NewFolder(ino: nat)
    | Deleted(node: string)
    | Renamed(node: string, name: string)
    | Moved(node: string, newParent: Option<string>, name: string)

  /** The state every operation keeps: a tree, with only the top folders under the root. */
  ghost predicate Sound(t: Table) {
    && Numbered(t) && RootRow(t.rows) && Rooted(t.rows) && OnlyTopFolders(t.rows) && t.rows[ROOT].ids == NO_IDS
  }

  lemma LeafAdded(t: Table, row: Row)
    requires Sound(t) && row.parent in t.rows && t.rows[row.parent].isDir && row.parent != ROOT
    ensures Sound(Table(t.rows[t.nextIno := row], t.nextIno + 1))
  {
    AddLeaf(t.rows, t.nextIno, row);
    hide Rooted;
  }

  lemma LeafDropped(t: Table, x: nat)
    requires Sound(t) && x in t.rows && x != ROOT && (t.rows[x].isDir ==> Children(t.rows, x) == {})
    ensures Sound(t.(rows := t.rows - {x}))
  {
    forall y | y in t.rows
      ensures t.rows[y].parent != x
    {
      assert t.rows[y].parent == x && y != x ==> y in Children(t.rows, x);
      if t.rows[y].parent == x && y == x {
        ParentAbove(t.rows, x, x);
        ChainEndsBelow(t.rows, x);
      }
    }
    DropLeaf(t.rows, x);
    hide Rooted;
  }

  lemma ChainEndsBelow(rows: Rows, x: nat)
    requires Rooted(rows) && x in rows
    ensures Below(rows, x, x)
  {
    var p := ChainOf(rows, x);
    assert p[|p| - 1] in p;
  }

  lemma RowMoved(t: Table, x: nat, d: nat, name: string)
    requires Sound(t) && x in t.rows && x != ROOT && d in t.rows && t.rows[d].isDir && d != ROOT && !Below(t.rows, x, d)
    ensures Sound(t.(rows := t.rows[x := t.rows[x].(parent := d, name := name)]))
  {
    MoveRow(t.rows, x, d, name);
    hide Rooted, Below;
  }

  lemma SubtreeDropped(t: Table, x: nat)
    requires Sound(t) && x in t.rows && x != ROOT
    ensures Sound(t.(rows := WithoutTree(t.rows, x)))
  {
    TreeRemoved(t.rows, x);
    hide Rooted, Below;
  }

  /** A new row is what a lookup of its name finds, if there was nothing before. */
  lemma OnlyOneNamed(rows: Rows, x: nat, row: Row)
    requires x !in rows && LookupChild(rows, row.parent, row.name).None?
    ensures LookupChild(rows[x := row], row.parent, row.name) == Some(x)
  {
    assert Named(rows, row.parent, row.name) == {};
    assert Named(rows[x := row], row.parent, row.name) == {x};
  }

  class FuseDb {
    var rows: Rows
    var nextIno: nat
    var queue: seq<Change>

    ghost function Contents(): Table
      reads this
    {
      Table(rows, nextIno)
    }

    ghost predicate Valid()
      reads this
    {
      Sound(Contents())
    }

    constructor ()
      ensures rows == map[] && Numbered(Contents()) && RootRow(rows)
    {
      rows, nextIno, queue := map[], 1, [];
    }

    method Insert(row: Row) returns (ino: nat)
      modifies this`rows, this`nextIno
      ensures ino == old(nextIno) && rows == old(rows)[ino := row] && nextIno == ino + 1
    {
      ino := nextIno;
      rows, nextIno := rows[ino := row], nextIno + 1;
    }

    method InsertRoot()
      requires Numbered(Contents()) && RootRow(rows)
      modifies this`rows, this`nextIno
      ensures Contents() == WithRoot(old(Contents()))
    {
      if ROOT !in rows {
        rows := rows[ROOT := Row(ROOT, "", true, NO_IDS)];
        nextIno := if nextIno > ROOT then nextIno else ROOT + 1;
      }
    }

    method EnsureMyFilesRoot() returns (ino: nat)
      requires Numbered(Contents()) && RootRow(rows)
      modifies this`rows, this`nextIno
      ensures (Contents(), ino) == MyFilesEnsured(old(Contents()))
    {
      InsertRoot();
      var found := LookupChild(rows, ROOT, MY_FILES);
      var root := rows[ROOT];
      if found.Some? {
        ino := found.value;
        if HasIds(root.ids) {
          rows := rows[ROOT := root.(ids := NO_IDS)];
          if rows[ino].ids.node.None? {
            rows := rows[ino := rows[ino].(ids := root.ids)];
          }
        }
      } else {
        ino := Insert(Row(ROOT, MY_FILES, true, NO_IDS));
        if HasIds(root.ids) {
          rows := rows[ROOT := root.(ids := NO_IDS)];
          rows := rows[ino := rows[ino].(ids := root.ids)];
        }
      }
      ReparentLegacyRootChildren(ino);
    }

    method ReparentLegacyRootChildren(m: nat)
      modifies this`rows
      ensures rows == Reparented(old(rows), m)
    {
      rows := map x | x in rows ::
        if rows[x].parent == ROOT && x != ROOT && x != m && rows[x].name != MY_FILES && rows[x].name != COMPUTERS then
          rows[x].(parent := m)
        else rows[x];
    }

    method EnsureComputersRoot() returns (ino: nat)
      requires Numbered(Contents()) && RootRow(rows)
      modifies this`rows, this`nextIno
      ensures (Contents(), ino) == ComputersEnsured(old(Contents()))
      ensures LookupChild(rows, ROOT, COMPUTERS) == Some(ino)
    {
      InsertRoot();
      var found := LookupChild(rows, ROOT, COMPUTERS);
      if found.Some? {
        return found.value;
      }
      OnlyOneNamed(rows, nextIno, Row(ROOT, COMPUTERS, true, NO_IDS));
      ino := Insert(Row(ROOT, COMPUTERS, true, NO_IDS));
    }

    /** `cacheReady`: whether the empty cache file could be made; the row stays even if not. */
    method Create(parent: nat, name: string, cacheReady: bool) returns (r: Reply)
      requires Valid() && parent in rows && rows[parent].isDir
      modifies this
      ensures Valid() && queue == old(queue)
      ensures r == Failed(EACCES) <==> Protected(old(rows), parent)
      ensures r == Failed(EEXIST) <==> !Protected(old(rows), parent) && LookupChild(old(rows), parent, name).Some?
      ensures r == Failed(EACCES) || r == Failed(EEXIST) ==> Contents() == old(Contents())
      ensures r == Done || r == Failed(EIO) ==>
                && rows == old(rows)[old(nextIno) := Row(parent, name, false, NO_IDS)] && nextIno == old(nextIno) + 1
                && (r == Done <==> cacheReady)
      ensures r == Done || r == Failed(EACCES) || r == Failed(EEXIST) || r == Failed(EIO)
    {
      hide Sound, LookupChild;
      if Protected(rows, parent) {
        return Failed(EACCES);
      }
      if LookupChild(rows, parent, name).Some? {
        return Failed(EEXIST);
      }
      LeafAdded(Contents(), Row(parent, name, false, NO_IDS));
      var _ := Insert(Row(parent, name, false, NO_IDS));
      return if cacheReady then Done else Failed(EIO);
    }

    method Mkdir(parent: nat, name: string, ignored: bool) returns (r: Reply)
      requires Valid() && parent in rows && rows[parent].isDir
      modifies this
      ensures Valid()
      ensures r == Failed(EACCES) <==> Protected(old(rows), parent)
      ensures r == Failed(EEXIST) <==> !Protected(old(rows), parent) && LookupChild(old(rows), parent, name).Some?
      ensures r != Done ==> Contents() == old(Contents()) && queue == old(queue)
      ensures r == Done ==>
                && rows == old(rows)[old(nextIno) := Row(parent, name, true, NO_IDS)] && nextIno == old(nextIno) + 1
                && queue == old(queue) + if ignored then [] else [NewFolder(old(nextIno))]
      ensures r == Done || r == Failed(EACCES) || r == Failed(EEXIST)
    {
      hide Sound, LookupChild;
      if Protected(rows, parent) {
        return Failed(EACCES);
      }
      if LookupChild(rows, parent, name).Some? {
        return Failed(EEXIST);
      }
      LeafAdded(Contents(), Row(parent, name, true, NO_IDS));
      var ino := Insert(Row(parent, name, true, NO_IDS));
      if !ignored {
        queue := queue + [NewFolder(ino)];
      }
      return Done;
    }

    method QueueDelete(ids: Ids)
      modifies this`queue
      ensures queue == old(queue) + if ids.node.Some? then [Deleted(ids.node.value)] else []
    {
      if ids.node.Some? {
        queue := queue + [Deleted(ids.node.value)];
      }
    }

    method Unlink(parent: nat, name: string) returns (r: Reply)
      requires Valid() && parent in rows
      modifies this
      ensures Valid()
      ensures r == Failed(EACCES) <==> Protected(old(rows), parent)
      ensures r == Failed(ENOENT) <==> !Protected(old(rows), parent) && LookupChild(old(rows), parent, name).None?
      ensures r == Failed(EISDIR) <==>
                && !Protected(old(rows), parent) && LookupChild(old(rows), parent, name).Some?
                && old(rows)[LookupChild(old(rows), parent, name).value].isDir
      ensures r != Done ==> Contents() == old(Contents()) && queue == old(queue)
      ensures r == Done ==>
                && var x := LookupChild(old(rows), parent, name).value;
                && !old(rows)[x].isDir && rows == old(rows) - {x} && nextIno == old(nextIno)
                && queue == old(queue) + if old(rows)[x].ids.node.Some? then [Deleted(old(rows)[x].ids.node.value)]
                    else []
      ensures r == Done || r == Failed(EACCES) || r == Failed(ENOENT) || r == Failed(EISDIR)
    {
      hide Sound, LookupChild;
      if Protected(rows, parent) {
        return Failed(EACCES);
      }
      var found := LookupChild(rows, parent, name);
      if found.None? {
        return Failed(ENOENT);
      }
      var x := found.value;
      if rows[x].isDir {
        return Failed(EISDIR);
      }
      NotRoot(Contents(), parent, name);
      LeafDropped(Contents(), x);
      QueueDelete(rows[x].ids);
      rows := rows - {x};
      return Done;
    }

    /** The first half of `rmdir`, before the folder's remote children are fetched without the lock. */
    method RmdirLookup(parent: nat, name: string) returns (r: Reply, x: nat)
      requires Valid() && parent in rows
      ensures r == Failed(EACCES) <==> Protected(rows, parent)
      ensures r == Failed(ENOENT) <==> !Protected(rows, parent) && LookupChild(rows, parent, name).None?
      ensures r == Failed(ENOTDIR) <==>
                && !Protected(rows, parent) && LookupChild(rows, parent, name).Some?
                && !rows[LookupChild(rows, parent, name).value].isDir
      ensures r == Done ==> LookupChild(rows, parent, name) == Some(x) && rows[x].isDir && x != ROOT
      ensures r == Done || r == Failed(EACCES) || r == Failed(ENOENT) || r == Failed(ENOTDIR)
    {
      hide Sound, LookupChild;
      x := ROOT;
      if Protected(rows, parent) {
        return Failed(EACCES), x;
      }
      var found := LookupChild(rows, parent, name);
      if found.None? {
        return Failed(ENOENT), x;
      }
      x := found.value;
      NotRoot(Contents(), parent, name);
      return if rows[x].isDir then Done else Failed(ENOTDIR), x;
    }

    /** The second half; the row may be gone by now. `ids` are the ones seen in the first half. */
    method RmdirFinish(x: nat, ids: Ids) returns (r: Reply)
      requires Valid() && x != ROOT
      modifies this
      ensures Valid()
      ensures r == if Children(old(rows), x) == {} then Done else Failed(ENOTEMPTY)
      ensures r == Done ==> rows == old(rows) - {x} && nextIno == old(nextIno)
      ensures r == Done ==> queue == old(queue) + if ids.node.Some? then [Deleted(ids.node.value)] else []
      ensures r != Done ==> Contents() == old(Contents()) && queue == old(queue)
    {
      hide Sound;
      if Children(rows, x) != {} {
        return Failed(ENOTEMPTY);
      }
      if x in rows {
        LeafDropped(Contents(), x);
      }
      assert x !in rows ==> rows - {x} == rows;
      QueueDelete(ids);
      rows := rows - {x};
      return Done;
    }

    /** The kernel names an existing target folder, never inside the moved subtree, and never the entry itself. */
    method Rename(parent: nat, name: string, newParent: nat, newName: string) returns (r: Reply)
      requires Valid() && parent in rows && newParent in rows && rows[newParent].isDir
      requires LookupChild(rows, parent, name).Some? ==>
                 && !Below(rows, LookupChild(rows, parent, name).value, newParent)
                 && LookupChild(rows, newParent, newName) != LookupChild(rows, parent, name)
      modifies this
      ensures Valid() && nextIno == old(nextIno)
      ensures r == Failed(EACCES) <==> Protected(old(rows), parent) || Protected(old(rows), newParent)
      ensures r == Failed(ENOENT) <==> !Protected(old(rows), parent) && !Protected(old(rows), newParent)
                                       && LookupChild(old(rows), parent, name).None?
      ensures r == Failed(ENOTEMPTY) <==>
                && !Protected(old(rows), parent) && !Protected(old(rows), newParent)
                && LookupChild(old(rows), parent, name).Some?
                && var target := LookupChild(old(rows), newParent, newName);
                target.Some? && old(rows)[target.value].isDir && Children(old(rows), target.value) != {}
      ensures r != Done ==> Contents() == old(Contents()) && queue == old(queue)
      ensures r == Done ==>
                && var x := LookupChild(old(rows), parent, name).value;
                && var target := LookupChild(old(rows), newParent, newName);
                && (target.Some? && old(rows)[target.value].isDir ==> Children(old(rows), target.value) == {})
                && var kept := if target.Some? then old(rows) - {target.value} else old(rows);
                && x in kept && rows == kept[x := kept[x].(parent := newParent, name := newName)]
                && queue == old(queue)
                     + (if target.Some? && old(rows)[target.value].ids.node.Some?
                         then [Deleted(old(rows)[target.value].ids.node.value)] else [])
                     + (if kept[x].ids.node.None? then []
                        else if parent == newParent then [Renamed(kept[x].ids.node.value, newName)]
                        else [Moved(kept[x].ids.node.value, old(rows)[newParent].ids.node, newName)])
      ensures r == Done || r == Failed(EACCES) || r == Failed(ENOENT) || r == Failed(ENOTEMPTY)
    {
      hide Sound, LookupChild, Below;
      if Protected(rows, parent) || Protected(rows, newParent) {
        return Failed(EACCES);
      }
      var found := LookupChild(rows, parent, name);
      if found.None? {
        return Failed(ENOENT);
      }
      var x := found.value;
      NotRoot(Contents(), parent, name);
      var existing := LookupChild(rows, newParent, newName);
      ghost var was := Contents();
      if existing.Some? {
        if rows[existing.value].isDir && Children(rows, existing.value) != {} {
          return Failed(ENOTEMPTY);
        }
        NotRoot(Contents(), newParent, newName);
        TargetApart(Contents(), existing.value, newParent);
        LeafDropped(Contents(), existing.value);
        LeafDroppedBelow(Contents(), existing.value, x, newParent);
        QueueDelete(rows[existing.value].ids);
        rows := rows - {existing.value};
      }
      RowMoved(Contents(), x, newParent, newName);
      var row := rows[x];
      rows := rows[x := row.(parent := newParent, name := newName)];
      if row.ids.node.Some? {
        if parent == newParent {
          queue := queue + [Renamed(row.ids.node.value, newName)];
        } else {
          queue := queue + [Moved(row.ids.node.value, rows[newParent].ids.node, newName)];
        }
      }
      return Done;
    }

    /** Deletes the rows below `x` first and `x` last: exactly its subtree goes. */
    method RemoveInodeTree(x: nat)
      requires Rooted(rows) && x in rows && x != ROOT
      modifies this`rows
      ensures rows == WithoutTree(old(rows), x)
      decreases |rows| - |ChainOf(rows, x)|
    {
      var children := Children(rows, x);
      ghost var was, all := rows, children;
      WithoutNone(rows, all);
      hide *;
      while children != {}
        invariant children <= all
        invariant rows == WithoutTrees(was, all - children)
        invariant Rooted(rows) && SameBelow(was, rows)
        decreases children
      {
        var c :| c in children;
        NextChild(was, rows, x, all, children, c);
        RemoveInodeTree(c);
        children := children - {c};
      }
      ChildrenDone(was, rows, x, all, children);
      rows := rows - {x};
    }

    method ApplyRemoteDelete(link: string) returns (found: Option<nat>)
      requires Valid()
      modifies this
      ensures Valid() && nextIno == old(nextIno) && queue == old(queue)
      ensures found.None? <==> forall x :: x in old(rows) ==> old(rows)[x].ids.link != Some(link)
      ensures found.None? ==> rows == old(rows)
      ensures found.Some? ==> found.value in old(rows) && old(rows)[found.value].ids.link == Some(link)
                              && rows == WithoutTree(old(rows), found.value)
    {
      found := First(WithLink(rows, link));
      hide Sound, WithoutTree, First;
      if found.Some? {
        LinkedRow(Contents(), link, found.value);
        SubtreeDropped(Contents(), found.value);
        RemoveInodeTree(found.value);
      }
    }
  }

  function WithLink(rows: Rows, link: string): (s: set<nat>)
    ensures forall x :: x in s <==> x in rows && rows[x].ids.link == Some(link)
  {
    set x | x in rows && rows[x].ids.link == Some(link)
  }

  lemma LinkedRow(t: Table, link: string, x: nat)
    requires Sound(t) && x in t.rows && t.rows[x].ids.link == Some(link)
    ensures Rooted(t.rows) && x != ROOT
  {
  }

  lemma NotRoot(t: Table, parent: nat, name: string)
    requires Sound(t) && !Protected(t.rows, parent)
    ensures LookupChild(t.rows, parent, name).Some? ==> LookupChild(t.rows, parent, name).value != ROOT
  {
  }

  lemma TargetApart(t: Table, target: nat, newParent: nat)
    requires Sound(t) && target in t.rows && target != ROOT && t.rows[target].parent == newParent
    ensures target != newParent
  {
    ParentAbove(t.rows, newParent, target);
    ChainEndsBelow(t.rows, target);
  }

  lemma LeafDroppedBelow(t: Table, leaf: nat, x: nat, d: nat)
    requires Sound(t) && !Below(t.rows, x, d)
    ensures !Below(t.rows - {leaf}, x, d)
  {
    forall p | Chain(t.rows - {leaf}, p, d)
      ensures x !in p
    {
      assert Chain(t.rows, p, d);
    }
  }

  lemma WithoutNone(rows: Rows, all: set<nat>)
    ensures WithoutTrees(rows, all - all) == rows && SameBelow(rows, rows)
  {
  }

  lemma NextChild(rows: Rows, left: Rows, x: nat, all: set<nat>, children: set<nat>, c: nat)
    requires Rooted(rows) && x in rows && x != ROOT && all == Children(rows, x) && children <= all && c in children
    requires left == WithoutTrees(rows, all - children) && Rooted(left) && SameBelow(rows, left)
    ensures c in left && c != ROOT && |left| - |ChainOf(left, c)| < |rows| - |ChainOf(rows, x)|
    ensures WithoutTree(left, c) == WithoutTrees(rows, all - (children - {c}))
    ensures Rooted(WithoutTree(left, c)) && SameBelow(rows, WithoutTree(left, c))
    ensures 0 <= |left| - |ChainOf(left, c)|
  {
    hide *;
    ChildLeft(rows, left, x, all, all - children, c);
    OneMoreTree(rows, left, all - children, c);
    assert (all - children) + {c} == all - (children - {c});
  }

  lemma ChildrenDone(rows: Rows, left: Rows, x: nat, all: set<nat>, children: set<nat>)
    requires Rooted(rows) && x in rows && x != ROOT && all == Children(rows, x) && children == {}
    requires left == WithoutTrees(rows, all - children)
    ensures left - {x} == WithoutTree(rows, x)
  {
    ChildrenBelow(rows, x);
    assert all - children == all;
    ChildrenThenRow(rows, x, all);
  }

  lemma ChildLeft(rows: Rows, left: Rows, x: nat, all: set<nat>, gone: set<nat>, c: nat)
    requires Rooted(rows) && x in rows && x != ROOT && all == Children(rows, x) && gone <= all && c in all - gone
    requires left == WithoutTrees(rows, gone) && Rooted(left)
    ensures c in left && c != ROOT && c in rows && rows[c].parent == x
    ensures |left| - |ChainOf(left, c)| < |rows| - |ChainOf(rows, x)|
  {
    forall s | s in gone
      ensures !Below(rows, s, c)
    {
      SiblingsApart(rows, x, s, c);
    }
    ParentAbove(rows, x, c);
    ChainLeft(rows, left, c);
    assert left.Keys <= rows.Keys;
    SubsetSmaller(left.Keys, rows.Keys);
    assert |left| == |left.Keys| && |rows| == |rows.Keys|;
  }

  lemma ChildrenBelow(rows: Rows, x: nat)
    requires Rooted(rows) && x in rows && x != ROOT
    ensures forall k :: k in Children(rows, x) <==> k in rows && k != ROOT && rows[k].parent == x
  {
    forall k | k in rows && rows[k].parent == x && k != ROOT
      ensures k != x
    {
      ParentAbove(rows, x, k);
      ChainEndsBelow(rows, k);
    }
  }

  /** On a fresh database, or a tree whose `MyFiles`, if any, is a folder, the two migrations leave the drive sound. */
  lemma MigrationsMakeSound(t: Table)
    requires Numbered(t) && RootRow(t.rows) && (ROOT in t.rows ==> Rooted(t.rows))
        && (ROOT !in t.rows ==> t.rows == map[])
    requires var m := LookupChild(t.rows, ROOT, MY_FILES); m.Some? ==> t.rows[m.value].isDir
    ensures Sound(MyFilesEnsured(t).0)
    ensures Sound(ComputersEnsured(MyFilesEnsured(t).0).0)
  {
    hide MyFilesEnsured, Rooted, BeforeMoving, Reparented, IdsMoved, WithRoot;
    EnsuredShape(t);
    MigrationMoves(t);
    MigrationKeepsTree(t);
    MyFilesIsFolder(t);
    ComputersAdded(MyFilesEnsured(t).0);
  }

  lemma ComputersAdded(t: Table)
    requires Sound(t)
    ensures Sound(ComputersEnsured(t).0)
  {
    assert WithRoot(t) == t;
    hide Sound;
    if LookupChild(t.rows, ROOT, COMPUTERS).None? {
      TopFolderAdded(t, Row(ROOT, COMPUTERS, true, NO_IDS));
    }
  }

  lemma MyFilesIsFolder(t: Table)
    requires Numbered(t) && RootRow(t.rows) && (ROOT !in t.rows ==> t.rows == map[])
    requires var m := LookupChild(t.rows, ROOT, MY_FILES); m.Some? ==> t.rows[m.value].isDir
    ensures var m := MyFilesEnsured(t).1; m in BeforeMoving(t) && BeforeMoving(t)[m].isDir
  {
    var w := WithRoot(t);
    if ROOT !in t.rows {
      assert Named(w.rows, ROOT, MY_FILES) == {};
    }
  }

  lemma TopFolderAdded(t: Table, row: Row)
    requires Sound(t) && row.parent == ROOT && row.isDir && (row.name == MY_FILES || row.name == COMPUTERS)
    ensures Sound(Table(t.rows[t.nextIno := row], t.nextIno + 1))
  {
    AddLeaf(t.rows, t.nextIno, row);
    hide Rooted;
  }

  /** A legacy root folder with a user's file called `MyFiles` and another file: the migration makes the
      first one the parent of the second. */
  lemma LegacyFileNamedMyFiles() returns (t: Table)
    ensures t == Table(map[1 := Row(1, "", true, NO_IDS), 2 := Row(1, "MyFiles", false, NO_IDS),
        3 := Row(1, "a", false, NO_IDS)], 4)
    ensures Numbered(t) && RootRow(t.rows) && Rooted(t.rows)
    ensures 3 in MyFilesEnsured(t).0.rows && MyFilesEnsured(t).0.rows[3].parent == 2
    ensures !Rooted(MyFilesEnsured(t).0.rows)
  {
    t := Table(map[1 := Row(1, "", true, NO_IDS), 2 := Row(1, "MyFiles", false, NO_IDS),
        3 := Row(1, "a", false, NO_IDS)], 4);
    assert Chain(t.rows, [1], 1) && Chain(t.rows, [1, 2], 2) && Chain(t.rows, [1, 3], 3);
    LegacyName();
    assert Named(t.rows, ROOT, MY_FILES) == {2};
    assert Legacy(t.rows, 2, 3);
    assert BeforeMoving(t) == t.rows && MyFilesEnsured(t).1 == 2;
    hide MyFilesEnsured, BeforeMoving;
    MigrationMoves(t);
    MigrationKeepsTree(t);
  }

  lemma LegacyName()
    ensures "a" != MY_FILES && "a" != COMPUTERS && "" != MY_FILES
  {
    assert |"a"| == 1 && |MY_FILES| == 7 && |COMPUTERS| == 9 && |""| == 0;
  }

  // ---- Walking up ----

  const MAX_STEPS: nat := 4096

  /** The names from the root down to `x`, walking at most `steps` rows up. */
  function Components(rows: Rows, x: nat, steps: nat): Option<seq<string>>
    decreases steps
  {
    if steps == 0 then None
    else if x == ROOT then Some([])
    else if x !in rows then None
    else
      var above := Components(rows, rows[x].parent, steps - 1);
      if above.None? then None else Some(above.value + [rows[x].name])
  }

  function After<T>(above: Option<seq<T>>, collected: seq<T>): Option<seq<T>> {
    if above.None? then None else Some(above.value + Reversed(collected))
  }

  lemma AfterOneMore<T>(above: Option<seq<T>>, collected: seq<T>, x: T)
    ensures After(above, collected + [x]) == After(if above.None? then None else Some(above.value + [x]), collected)
    ensures After(Some([]), collected) == Some(Reversed(collected))
  {
    assert Reversed(collected + [x]) == [x] + Reversed(collected);
    hide Reversed;
    assert [] + Reversed(collected) == Reversed(collected);
    if above.Some? {
      Regroup(above.value, [x], Reversed(collected));
    }
  }

  lemma Regroup<T>(a: seq<T>, b: seq<T>, c: seq<T>)
    ensures (a + b) + c == a + (b + c)
  {
  }

  method PathComponents(rows: Rows, x: nat) returns (names: Option<seq<string>>)
    ensures names == Components(rows, x, 4096)
  {
    var ino := x;
    var collected: seq<string> := [];
    AfterNone(Components(rows, x, MAX_STEPS));
    for n := 0 to MAX_STEPS
      invariant Components(rows, x, MAX_STEPS) == After(Components(rows, ino, MAX_STEPS - n), collected)
    {
      AfterOneMore(if ino in rows then Components(rows, rows[ino].parent, MAX_STEPS - n - 1) else None, collected,
                   if ino in rows then rows[ino].name else "");
      if ino == ROOT {
        return Some(Reversed(collected));
      }
      if ino !in rows {
        return None;
      }
      collected := collected + [rows[ino].name];
      ino := rows[ino].parent;
    }
    return None;
  }

  lemma AfterNone<T>(r: Option<seq<T>>)
    ensures After(r, []) == r
  {
    if r.Some? {
      assert r.value + Reversed([]) == r.value;
    }
  }

  /** Whether the walk of `inode_path` from `x` ends within `n` further rows: at the root, at a row that is its
      own parent, or at a missing row. On any longer cycle the walk has no end. */
  predicate WalkEnds(rows: Rows, x: nat, n: nat)
    decreases n
  {
    x !in rows || x == ROOT || rows[x].parent == x || (n > 0 && WalkEnds(rows, rows[x].parent, n - 1))
  }

  /** The rows from the top down to `x`; nothing when a parent is missing. */
  function Walk(rows: Rows, x: nat, n: nat): Option<seq<nat>>
    requires WalkEnds(rows, x, n)
    decreases n
  {
    if x !in rows then None
    else if x == ROOT || rows[x].parent == x then Some([x])
    else
      var above := Walk(rows, rows[x].parent, n - 1);
      if above.None? then None else Some(above.value + [x])
  }

  method InodePath(rows: Rows, x: nat, ghost n: nat) returns (path: Option<seq<nat>>)
    requires WalkEnds(rows, x, n)
    ensures path == Walk(rows, x, n)
  {
    if x !in rows {
      return None;
    }
    var current, collected: seq<nat> := x, [];
    ghost var left: nat := n;
    AfterNone(Walk(rows, x, n));
    while true
      invariant current in rows && WalkEnds(rows, current, left)
      invariant Walk(rows, x, n) == After(Walk(rows, current, left), collected)
      decreases left
    {
      var parent := rows[current].parent;
      AfterOneMore(if current == ROOT || current == parent then Some([]) else Walk(rows, parent, left - 1), collected,
          current);
      AfterOneMore(Some([]), collected + [current], current);
      assert [] + [current] == [current];
      collected := collected + [current];
      if current == ROOT || current == parent {
        return Some(Reversed(collected));
      }
      if parent !in rows {
        return None;
      }
      current := parent;
      left := left - 1;
    }
  }

  /** The names along a chain, without the root's. */
  function Names(rows: Rows, p: seq<nat>): (r: seq<string>)
    requires forall k :: 0 < k < |p| ==> p[k] in rows
    ensures |p| > 0 ==> |r| == |p| - 1 && forall k :: 0 < k < |p| ==> r[k - 1] == rows[p[k]].name
  {
    if |p| <= 1 then [] else Names(rows, p[..|p| - 1]) + [rows[p[|p| - 1]].name]
  }

  /** The bounded walk succeeds exactly for rows whose chain to the root has at most that many rows, and then
      gives the names along it. */
  ghost predicate Exactly(rows: Rows, x: nat, steps: nat) {
    && (Components(rows, x, steps).Some? <==> exists p :: Chain(rows, p, x) && |p| <= steps)
    && forall p :: Chain(rows, p, x) && |p| <= steps ==> Components(rows, x, steps) == Some(Names(rows, p))
  }

  lemma ExactlyTop(rows: Rows, x: nat, steps: nat)
    requires steps == 0 || x == ROOT || x !in rows
    ensures Exactly(rows, x, steps)
  {
    if x == ROOT {
      assert Chain(rows, [ROOT], ROOT);
      forall p | Chain(rows, p, x)
        ensures p == [ROOT]
      {
        ChainUnique(rows, p, [ROOT], x);
      }
    }
  }

  lemma ExactlyBelow(rows: Rows, x: nat, steps: nat)
    requires steps > 0 && x != ROOT && x in rows && Exactly(rows, rows[x].parent, steps - 1)
    ensures Exactly(rows, x, steps)
  {
    var parent := rows[x].parent;
    forall p | Chain(rows, p, x) && |p| <= steps
      ensures Components(rows, x, steps) == Some(Names(rows, p))
    {
      assert Chain(rows, p[..|p| - 1], parent);
    }
    if Components(rows, x, steps).Some? {
      var p :| Chain(rows, p, parent) && |p| <= steps - 1;
      ChainLonger(rows, p, parent, x);
    }
  }

  /** So never on a cycle or a broken chain. */
  lemma {:induction false} ComponentsExact(rows: Rows, x: nat, steps: nat)
    ensures Exactly(rows, x, steps)
    decreases steps
  {
    hide Exactly;
    if steps == 0 || x == ROOT || x !in rows {
      ExactlyTop(rows, x, steps);
    } else {
      ComponentsExact(rows, rows[x].parent, steps - 1);
      ExactlyBelow(rows, x, steps);
    }
  }

  lemma {:induction false} WalkIsChain(rows: Rows, p: seq<nat>, x: nat)
    requires ROOT in rows && Chain(rows, p, x)
    ensures WalkEnds(rows, x, |p| - 1) && Walk(rows, x, |p| - 1) == Some(p)
    decreases |p|
  {
    if x == ROOT {
      assert Chain(rows, [ROOT], ROOT);
      ChainUnique(rows, p, [ROOT], x);
    } else {
      WalkIsChain(rows, p[..|p| - 1], rows[x].parent);
      ChainDistinct(rows, p, x);
      assert p == p[..|p| - 1] + [x];
    }
  }

  /** On a tree the two walks agree: below a depth of 4096 the components are the names of the path without the
      root, and beyond that there are none. */
  lemma WalksAgree(rows: Rows, x: nat)
    requires Rooted(rows) && x in rows
    ensures var p := ChainOf(rows, x);
            && WalkEnds(rows, x, |p| - 1) && Walk(rows, x, |p| - 1) == Some(p)
            && Components(rows, x, 4096) == (if |p| - 1 < 4096 then Some(Names(rows, p)) else None)
  {
    var p := ChainOf(rows, x);
    WalkIsChain(rows, p, x);
    ComponentsExact(rows, x, MAX_STEPS);
    if q :| Chain(rows, q, x) && |q| <= MAX_STEPS {
      ChainUnique(rows, p, q, x);
    }
  }
}
