/** The index of a photo library by content, and the plan that trashes extra copies. */
module PhotoIndex {
  import opened Bytes
  import opened Wrappers

  type Hash = seq<Byte>

  /** A photo's uid, as its rank among all uid strings. */
  type Uid = nat

  const HASH_LENGTH: nat := 32

  datatype Page = Page(entries: seq<(Uid, Option<Hash>)>, next: Option<string>)

  type Groups = map<Hash, seq<Uid>>

  function Grouped(groups: Groups): (s: set<Uid>)
    ensures forall u :: u in s <==> exists h :: h in groups && u in groups[h]
  {
    set h, u | h in groups && u in groups[h] :: u
  }

  /** Each photo stands in one place of one group. */
  ghost predicate Tidy(groups: Groups) {
    && (forall h :: h in groups ==> groups[h] != [])
    && (forall h, i, j :: h in groups && 0 <= i < j < |groups[h]| ==> groups[h][i] != groups[h][j])
    && (forall g, h, u :: g in groups && h in groups && u in groups[g] && u in groups[h] ==> g == h)
  }

  function Added(groups: Groups, uid: Uid, hash: Hash): Groups {
    groups[hash := (if hash in groups then groups[hash] else []) + [uid]]
  }

  lemma AddedTidy(groups: Groups, uid: Uid, hash: Hash)
    requires Tidy(groups) && uid !in Grouped(groups)
    ensures Tidy(Added(groups, uid, hash)) && Grouped(Added(groups, uid, hash)) == Grouped(groups) + {uid}
  {
    var after := Added(groups, uid, hash);
    forall u | u in Grouped(groups) + {uid}
      ensures u in Grouped(after)
    {
      if u == uid {
        assert u in after[hash];
      } else {
        var h :| h in groups && u in groups[h];
        assert u in after[h];
      }
    }
    forall h, u | h in after && u in after[h]
      ensures (u == uid && h == hash) || (h in groups && u in groups[h])
    {
    }
  }

  function Least(group: seq<Uid>): (m: Uid)
    requires group != []
    ensures m in group && forall u :: u in group ==> m <= u
  {
    if |group| == 1 then group[0]
    else
      assert group == [group[0]] + group[1..];
      var rest := Least(group[1..]);
      if group[0] <= rest then group[0] else rest
  }

  /** One photo of every group: the one with the lowest uid. */
  function Survivors(groups: Groups): set<Uid>
    requires forall h :: h in groups ==> groups[h] != []
  {
    set h | h in groups :: Least(groups[h])
  }

  lemma OneGroupLess(groups: Groups, h: Hash)
    requires Tidy(groups) && h in groups
    ensures Tidy(groups - {h})
    ensures forall g :: g in groups - {h} ==> groups[g] != [] && Least(groups[g]) != Least(groups[h])
  {
    forall g | g in groups - {h}
      ensures Least(groups[g]) != Least(groups[h])
    {
      assert Least(groups[g]) in groups[g] && Least(groups[h]) in groups[h];
    }
  }

  lemma SmallerMap(groups: Groups, h: Hash)
    requires h in groups
    ensures |groups| == |groups - {h}| + 1
  {
    var rest := groups - {h};
    assert |groups| == |groups.Keys| && |rest| == |rest.Keys| && groups.Keys == rest.Keys + {h};
  }

  lemma SurvivorStep(groups: Groups, h: Hash)
    requires Tidy(groups) && h in groups
    ensures var rest := groups - {h};
            && Tidy(rest) && |groups| == |rest| + 1
            && Survivors(groups) == Survivors(rest) + {Least(groups[h])} && Least(groups[h]) !in Survivors(rest)
  {
    OneGroupLess(groups, h);
    SmallerMap(groups, h);
    var rest := groups - {h};
    assert forall g :: g in groups ==> g in rest || g == h;
    hide Least, Tidy;
  }

  lemma {:induction false} SurvivorCount(groups: Groups)
    requires Tidy(groups)
    ensures |Survivors(groups)| == |groups|
    decreases |groups|
  {
    if h :| h in groups {
      SurvivorStep(groups, h);
      hide Tidy, Survivors, Least;
      SurvivorCount(groups - {h});
    } else {
      assert Survivors(groups) == {};
    }
  }

  function Members(unchecked: seq<Uid>): set<Uid> {
    set u | u in unchecked
  }

  /** The counters agree with the groups. */
  ghost predicate Counted(scanned: nat, unchecked: seq<Uid>, extraCopies: nat, groups: Groups, uids: set<Uid>) {
    && Tidy(groups)
    && uids == Grouped(groups) + Members(unchecked) && Members(unchecked) !! Grouped(groups)
    && scanned == |Grouped(groups)| + |unchecked|
    && extraCopies == |Grouped(groups)| - |groups|
  }

  lemma CountedAdded(scanned: nat, unchecked: seq<Uid>, extraCopies: nat, groups: Groups, uids: set<Uid>, uid: Uid,
        hash: Hash)
    requires Counted(scanned, unchecked, extraCopies, groups, uids) && uid !in uids
    ensures Counted(scanned + 1, unchecked, extraCopies + if hash in groups then 1 else 0, Added(groups, uid, hash),
        uids + {uid})
  {
    AddedTidy(groups, uid, hash);
    AddedSize(groups, uid, hash);
    hide Tidy, Added, Grouped, Members;
    OneMoreOf(Grouped(groups), Members(unchecked), uid);
  }

  lemma AddedSize(groups: Groups, uid: Uid, hash: Hash)
    ensures |Added(groups, uid, hash)| == |groups| + if hash in groups then 0 else 1
  {
    assert Added(groups, uid, hash).Keys == groups.Keys + {hash};
    assert |Added(groups, uid, hash)| == |Added(groups, uid, hash).Keys| && |groups| == |groups.Keys|;
  }

  lemma OneMoreOf(a: set<Uid>, b: set<Uid>, x: Uid)
    requires x !in a + b && a !! b
    ensures (a + {x}) + b == (a + b) + {x} && a + (b + {x}) == (a + b) + {x}
    ensures |a + {x}| == |a| + 1 && (a + {x}) !! b && a !! (b + {x})
  {
  }

  lemma MembersMore(unchecked: seq<Uid>, uid: Uid)
    ensures Members(unchecked + [uid]) == Members(unchecked) + {uid}
  {
  }

  lemma CountedUnchecked(scanned: nat, unchecked: seq<Uid>, extraCopies: nat, groups: Groups, uids: set<Uid>, uid: Uid)
    requires Counted(scanned, unchecked, extraCopies, groups, uids) && uid !in uids
    ensures Counted(scanned + 1, unchecked + [uid], extraCopies, groups, uids + {uid})
  {
    hide Tidy, Grouped, Members;
    MembersMore(unchecked, uid);
    OneMoreOf(Grouped(groups), Members(unchecked), uid);
  }

  class Index {
    var scanned: nat
    var unchecked: seq<Uid>
    var extraCopies: nat
    var byHash: Groups
    ghost var uids: set<Uid>

    ghost predicate Valid()
      reads this
    {
      Counted(scanned, unchecked, extraCopies, byHash, uids)
    }

    constructor ()
      ensures Valid() && uids == {} && byHash == map[] && unchecked == []
    {
      scanned, unchecked, extraCopies, byHash, uids := 0, [], 0, map[], {};
    }

    /** Hashes of another length than a SHA-256 are not trusted. */
    method AddHash(uid: Uid, hash: Option<Hash>)
      requires Valid() && uid !in uids
      modifies this
      ensures Valid() && uids == old(uids) + {uid}
      ensures if hash.Some? && |hash.value| == 32
              then byHash == Added(old(byHash), uid, hash.value) && unchecked == old(unchecked)
              else byHash == old(byHash) && unchecked == old(unchecked) + [uid]
    {
      hide Counted, Added;
      scanned := scanned + 1;
      if hash.Some? && |hash.value| == HASH_LENGTH {
        CountedAdded(old(scanned), unchecked, extraCopies, byHash, uids, uid, hash.value);
        NoEmptyGroup(old(scanned), unchecked, extraCopies, byHash, uids);
        var group := if hash.value in byHash then byHash[hash.value] else [];
        extraCopies := extraCopies + if group != [] then 1 else 0;
        AddedIs(byHash, uid, hash.value);
        byHash := byHash[hash.value := group + [uid]];
      } else {
        CountedUnchecked(old(scanned), unchecked, extraCopies, byHash, uids, uid);
        unchecked := unchecked + [uid];
      }
      uids := uids + {uid};
    }

    /** Goes through the pages of the timeline until one names no next page; a photo listed again is counted once. A
        cursor that comes back is an error, and so is a page that cannot be fetched, here one past the given ones. */
    method Scan(pages: seq<Page>) returns (r: ScanResult)
      requires Valid() && uids == {}
      modifies this
      ensures Valid()
      ensures r.Complete? <==> exists n: nat :: EndsAt(pages, n)
      ensures r.CursorRepeated? <==> exists n: nat :: ComesBackAt(pages, n)
      ensures r.PageMissing? <==> Advances(pages, |pages|)
      ensures r.Complete? ==>
                exists n: nat :: EndsAt(pages, n) && uids == Listed(pages[..n + 1])
                                 && Filed(Entries(pages[..n + 1]), byHash, unchecked)
    {
      hide Counted, Listed, Entries, Filed;
      var seenCursors: set<string>, seenUids: set<Uid> := {}, {};
      NoPages();
      NothingFiled(scanned, unchecked, extraCopies, byHash, uids);
      for n := 0 to |pages|
        invariant Valid() && seenUids == uids && uids == Listed(pages[..n]) && uids == OnPage(Entries(pages[..n]))
        invariant Filed(Entries(pages[..n]), byHash, unchecked)
        invariant Advances(pages, n) && forall c :: c in seenCursors <==> CursorBefore(pages, n, c)
      {
        ListedMore(pages, n);
        EntriesMore(pages, n);
        seenUids := AddPage(pages[n].entries, seenUids, Entries(pages[..n]));
        OneResult(pages, n);
        if pages[n].next.None? {
          assert EndsAt(pages, n);
          return Complete;
        }
        if pages[n].next.value in seenCursors {
          assert ComesBackAt(pages, n);
          return CursorRepeated;
        }
        seenCursors := seenCursors + {pages[n].next.value};
      }
      OneResult(pages, |pages|);
      return PageMissing;
    }

    method AddPage(entries: seq<(Uid, Option<Hash>)>, seenUids: set<Uid>, ghost before: seq<(Uid, Option<Hash>)>)
        returns (seen: set<Uid>)
      requires Valid() && seenUids == uids && uids == OnPage(before) && Filed(before, byHash, unchecked)
      modifies this
      ensures Valid() && seen == uids && uids == old(uids) + OnPage(entries) && uids == OnPage(before + entries)
      ensures Filed(before + entries, byHash, unchecked)
    {
      hide Counted, Added, Filed;
      seen := seenUids;
      assert before + entries[..0] == before;
      for k := 0 to |entries|
        invariant Valid() && seen == uids && uids == old(uids) + OnPage(entries[..k])
        invariant uids == OnPage(before + entries[..k]) && Filed(before + entries[..k], byHash, unchecked)
      {
        OnPageMore(entries, k);
        assert before + entries[..k + 1] == before + entries[..k] + [entries[k]];
        var (uid, hash) := entries[k];
        FiledMore(before + entries[..k], uid, hash, byHash, unchecked);
        OnPageSnoc(before + entries[..k], entries[k]);
        if uid !in seen {
          seen := seen + {uid};
          AddHash(uid, hash);
        }
      }
      assert entries[..|entries|] == entries;
    }

    /** What to keep and what to trash. Of every content exactly one photo is left, the one with the lowest uid; nothing
        unchecked is trashed; and the extras are as many as were counted during the scan. */
    method RemovalPlan() returns (kept: set<Uid>, extras: set<Uid>)
      requires Valid()
      ensures Grouped(byHash) - extras == Survivors(byHash)
      ensures extras <= Grouped(byHash) && Members(unchecked) !! Grouped(byHash)
      ensures kept == set h | h in byHash && |byHash[h]| > 1 :: Least(byHash[h])
      ensures |extras| == extraCopies
    {
      CountedMeans(scanned, unchecked, extraCopies, byHash, uids);
      hide Counted, Tidy, Grouped, Members, Survivors, Least;
      kept, extras := SplitGroups(byHash);
      SurvivorCount(byHash);
      ExtrasOrKept(byHash, extras);
    }
  }

  lemma CountedMeans(scanned: nat, unchecked: seq<Uid>, extraCopies: nat, groups: Groups, uids: set<Uid>)
    requires Counted(scanned, unchecked, extraCopies, groups, uids)
    ensures Tidy(groups) && (forall h :: h in groups ==> groups[h] != [])
    ensures Members(unchecked) !! Grouped(groups) && extraCopies == |Grouped(groups)| - |groups|
  {
  }

  method SplitGroups(groups: Groups) returns (kept: set<Uid>, extras: set<Uid>)
    requires forall h :: h in groups ==> groups[h] != []
    ensures kept == set h | h in groups && |groups[h]| > 1 :: Least(groups[h])
    ensures forall u :: u in extras <==> exists h :: h in groups && u in groups[h] && u != Least(groups[h])
  {
    kept, extras := {}, {};
    var left := groups.Keys;
    NoGroupsYet(groups);
    hide Keepers, Extras, Least;
    while left != {}
      invariant left <= groups.Keys
      invariant kept == Keepers(groups, groups.Keys - left) && extras == Extras(groups, groups.Keys - left)
      decreases left
    {
      var h :| h in left;
      OneGroup(groups, left, h);
      left := left - {h};
      var group := groups[h];
      if |group| > 1 {
        kept := kept + {Least(group)};
        extras := extras + set u | u in group && u != Least(group);
      }
    }
    AllGroups(groups, left);
  }

  lemma NoGroupsYet(groups: Groups)
    requires forall h :: h in groups ==> groups[h] != []
    ensures Keepers(groups, groups.Keys - groups.Keys) == {} && Extras(groups, groups.Keys - groups.Keys) == {}
  {
  }

  lemma AllGroups(groups: Groups, left: set<Hash>)
    requires left == {} && forall h :: h in groups ==> groups[h] != []
    ensures Keepers(groups, groups.Keys - left) == set h | h in groups && |groups[h]| > 1 :: Least(groups[h])
    ensures forall u :: u in Extras(groups, groups.Keys - left) <==>
        exists h :: h in groups && u in groups[h] && u != Least(groups[h])
  {
  }

  function Keepers(groups: Groups, done: set<Hash>): set<Uid> {
    set h | h in groups && h in done && |groups[h]| > 1 :: Least(groups[h])
  }

  function Extras(groups: Groups, done: set<Hash>): (s: set<Uid>)
    requires forall h :: h in groups ==> groups[h] != []
    ensures forall u :: u in s <==> exists h :: h in groups && h in done && u in groups[h] && u != Least(groups[h])
  {
    set h, u | h in groups && h in done && u in groups[h] && u != Least(groups[h]) :: u
  }

  lemma OneGroup(groups: Groups, left: set<Hash>, h: Hash)
    requires (forall g :: g in groups ==> groups[g] != []) && h in left && left <= groups.Keys
    ensures var group := groups[h];
            var others := set u | u in group && u != Least(group);
            var (done, more) := (groups.Keys - left, groups.Keys - (left - {h}));
            && Keepers(groups, more) == Keepers(groups, done) + (if |group| > 1 then {Least(group)} else {})
            && Extras(groups, more) == Extras(groups, done) + (if |group| > 1 then others else {})
  {
    if |groups[h]| == 1 {
      assert forall u :: u in groups[h] ==> u == Least(groups[h]);
    }
    hide Least;
    assert groups.Keys - (left - {h}) == (groups.Keys - left) + {h};
  }

  lemma NoEmptyGroup(scanned: nat, unchecked: seq<Uid>, extraCopies: nat, groups: Groups, uids: set<Uid>)
    requires Counted(scanned, unchecked, extraCopies, groups, uids)
    ensures forall h :: h in groups ==> groups[h] != []
  {
  }

  lemma AddedIs(groups: Groups, uid: Uid, hash: Hash)
    ensures Added(groups, uid, hash) == groups[hash := (if hash in groups then groups[hash] else []) + [uid]]
  {
  }

  datatype ScanResult = Complete | CursorRepeated | PageMissing

  /** One of the first `n` pages names `c` as its next. */
  predicate CursorBefore(pages: seq<Page>, n: nat, c: string)
    requires n <= |pages|
  {
    exists i :: 0 <= i < n && pages[i].next == Some(c)
  }

  /** The first `n` pages lead on, each to a page that none before led to. */
  predicate Advances(pages: seq<Page>, n: nat)
    requires n <= |pages|
  {
    forall i :: 0 <= i < n ==> pages[i].next.Some? && !CursorBefore(pages, i, pages[i].next.value)
  }

  predicate EndsAt(pages: seq<Page>, n: nat) {
    n < |pages| && Advances(pages, n) && pages[n].next.None?
  }

  predicate ComesBackAt(pages: seq<Page>, n: nat) {
    n < |pages| && Advances(pages, n) && pages[n].next.Some? && CursorBefore(pages, n, pages[n].next.value)
  }

  /** What happens at the page after the first `n` decides. */
  lemma OneResult(pages: seq<Page>, n: nat)
    requires n <= |pages| && Advances(pages, n)
    ensures forall m: nat :: EndsAt(pages, m) || ComesBackAt(pages, m) ==> m >= n
    ensures n < |pages| && !Advances(pages, n + 1) ==> forall m: nat :: m <= |pages| && Advances(pages, m) ==> m <= n
    ensures n < |pages| ==>
              (Advances(pages, n + 1) <==> pages[n].next.Some? && !CursorBefore(pages, n, pages[n].next.value))
  {
    hide CursorBefore;
  }

  // ---- Which photo is where ----

  /** All that is listed on some pages, in order. */
  function Entries(pages: seq<Page>): seq<(Uid, Option<Hash>)> {
    if pages == [] then [] else Entries(pages[..|pages| - 1]) + pages[|pages| - 1].entries
  }

  lemma EntriesMore(pages: seq<Page>, n: nat)
    requires n < |pages|
    ensures Entries(pages[..n + 1]) == Entries(pages[..n]) + pages[n].entries
  {
    assert pages[..n + 1][..n] == pages[..n];
  }

  /** The hash a photo was first listed with. */
  function FirstHash(entries: seq<(Uid, Option<Hash>)>, u: Uid): Option<Hash> {
    if entries == [] then None
    else
      var (earlier, last) := (entries[..|entries| - 1], entries[|entries| - 1]);
      if u in OnPage(earlier) then FirstHash(earlier, u) else if last.0 == u then last.1 else None
  }

  /** Every listed photo is in the group of the hash it was first listed with, if that is a SHA-256, and otherwise among
      the unchecked ones; and nothing else is. */
  ghost predicate Filed(entries: seq<(Uid, Option<Hash>)>, groups: Groups, unchecked: seq<Uid>) {
    && (forall h, u :: h in groups && u in groups[h] ==> u in OnPage(entries) && IsHash(FirstHash(entries, u), h))
    && (forall u :: u in unchecked ==> u in OnPage(entries) && NoHash(FirstHash(entries, u)))
    && (forall u :: u in OnPage(entries) ==> u in unchecked || InGroup(groups, FirstHash(entries, u), u))
  }

  predicate IsHash(hash: Option<Hash>, h: Hash) {
    hash == Some(h) && |h| == 32
  }

  predicate NoHash(hash: Option<Hash>) {
    hash.Some? ==> |hash.value| != 32
  }

  predicate InGroup(groups: Groups, hash: Option<Hash>, u: Uid) {
    hash.Some? && hash.value in groups && u in groups[hash.value]
  }

  lemma NothingFiled(scanned: nat, unchecked: seq<Uid>, extraCopies: nat, groups: Groups, uids: set<Uid>)
    requires Counted(scanned, unchecked, extraCopies, groups, uids) && uids == {}
    ensures Filed([], groups, unchecked) && Entries([]) == []
  {
    assert forall h, u :: h in groups && u in groups[h] ==> u in Grouped(groups);
    assert forall u :: u in unchecked ==> u in Members(unchecked);
  }

  lemma OnPageSnoc(entries: seq<(Uid, Option<Hash>)>, last: (Uid, Option<Hash>))
    ensures OnPage(entries + [last]) == OnPage(entries) + {last.0}
  {
  }

  lemma FirstHashMore(entries: seq<(Uid, Option<Hash>)>, last: (Uid, Option<Hash>), u: Uid)
    ensures u in OnPage(entries) ==> FirstHash(entries + [last], u) == FirstHash(entries, u)
    ensures u !in OnPage(entries) && u == last.0 ==> FirstHash(entries + [last], u) == last.1
  {
    assert (entries + [last])[..|entries|] == entries;
  }

  /** Photos listed before keep their first hash. */
  ghost predicate Prolonged(entries: seq<(Uid, Option<Hash>)>, more: seq<(Uid, Option<Hash>)>) {
    OnPage(entries) <= OnPage(more) && forall u :: u in OnPage(entries) ==> FirstHash(more, u) == FirstHash(entries, u)
  }

  lemma FiledSame(entries: seq<(Uid, Option<Hash>)>, more: seq<(Uid, Option<Hash>)>, groups: Groups,
        unchecked: seq<Uid>)
    requires Filed(entries, groups, unchecked) && Prolonged(entries, more) && OnPage(more) == OnPage(entries)
    ensures Filed(more, groups, unchecked)
  {
    hide FirstHash, OnPage;
  }

  lemma FiledGroup(entries: seq<(Uid, Option<Hash>)>, more: seq<(Uid, Option<Hash>)>, groups: Groups,
        unchecked: seq<Uid>, uid: Uid, hash: Hash)
    requires Filed(entries, groups, unchecked) && Prolonged(entries, more) && uid !in OnPage(entries)
    requires OnPage(more) == OnPage(entries) + {uid} && FirstHash(more, uid) == Some(hash) && |hash| == 32
    ensures Filed(more, Added(groups, uid, hash), unchecked)
  {
    hide FirstHash, OnPage;
    var after := Added(groups, uid, hash);
    assert InGroup(after, Some(hash), uid);
    forall u | u in OnPage(entries)
      ensures u in unchecked || InGroup(after, FirstHash(more, u), u)
    {
      assert u in unchecked || InGroup(groups, FirstHash(entries, u), u);
    }
  }

  lemma FiledUnchecked(entries: seq<(Uid, Option<Hash>)>, more: seq<(Uid, Option<Hash>)>, groups: Groups,
        unchecked: seq<Uid>, uid: Uid)
    requires Filed(entries, groups, unchecked) && Prolonged(entries, more) && uid !in OnPage(entries)
    requires OnPage(more) == OnPage(entries) + {uid}
    requires NoHash(FirstHash(more, uid))
    ensures Filed(more, groups, unchecked + [uid])
  {
    hide FirstHash, OnPage;
    var longer := unchecked + [uid];
    assert forall u :: u in longer <==> u in unchecked || u == uid;
    hide NoHash, IsHash, InGroup;
  }

  lemma FiledMore(entries: seq<(Uid, Option<Hash>)>, uid: Uid, hash: Option<Hash>, groups: Groups, unchecked: seq<Uid>)
    requires Filed(entries, groups, unchecked)
    ensures uid in OnPage(entries) ==> Filed(entries + [(uid, hash)], groups, unchecked)
    ensures uid !in OnPage(entries) ==>
              if hash.Some? && |hash.value| == 32 then
                Filed(entries + [(uid, hash)], Added(groups, uid, hash.value), unchecked)
              else Filed(entries + [(uid, hash)], groups, unchecked + [uid])
  {
    hide FirstHash, OnPage, Filed, Added;
    var more := entries + [(uid, hash)];
    OnPageSnoc(entries, (uid, hash));
    forall u
      ensures u in OnPage(entries) ==> FirstHash(more, u) == FirstHash(entries, u)
    {
      FirstHashMore(entries, (uid, hash), u);
    }
    FirstHashMore(entries, (uid, hash), uid);
    if uid in OnPage(entries) {
      FiledSame(entries, more, groups, unchecked);
    } else if hash.Some? && |hash.value| == 32 {
      FiledGroup(entries, more, groups, unchecked, uid, hash.value);
    } else {
      FiledUnchecked(entries, more, groups, unchecked, uid);
    }
  }

  function OnPage(entries: seq<(Uid, Option<Hash>)>): set<Uid> {
    set e | e in entries :: e.0
  }

  lemma OnPageMore(entries: seq<(Uid, Option<Hash>)>, k: nat)
    requires k < |entries|
    ensures OnPage(entries[..k + 1]) == OnPage(entries[..k]) + {entries[k].0}
  {
    assert entries[..k + 1] == entries[..k] + [entries[k]];
  }

  /** The photos on some pages. */
  function Listed(pages: seq<Page>): set<Uid> {
    if pages == [] then {} else Listed(pages[..|pages| - 1]) + OnPage(pages[|pages| - 1].entries)
  }

  lemma NoPages()
    ensures Listed([]) == {}
  {
  }

  lemma ListedMore(pages: seq<Page>, n: nat)
    requires n < |pages|
    ensures Listed(pages[..n + 1]) == Listed(pages[..n]) + OnPage(pages[n].entries)
  {
    assert pages[..n + 1][..n] == pages[..n];
  }

  lemma ExtrasOrKept(groups: Groups, extras: set<Uid>)
    requires Tidy(groups)
    requires forall u :: u in extras <==> exists h :: h in groups && u in groups[h] && u != Least(groups[h])
    ensures Grouped(groups) - extras == Survivors(groups) && extras <= Grouped(groups)
    ensures |Grouped(groups)| == |Survivors(groups)| + |extras|
  {
    forall u | u in Grouped(groups)
      ensures u in extras <==> u !in Survivors(groups)
    {
      var h :| h in groups && u in groups[h];
      assert forall g :: g in groups && Least(groups[g]) == u ==> g == h;
    }
    assert forall u :: u in Survivors(groups) ==> u in Grouped(groups);
    assert Grouped(groups) == Survivors(groups) + extras;
  }
}
