/** The capped log of sync events: every insert trims it to the 100 newest, newest meaning the greatest by
    time and then by id. */
module EventLog {
  import opened Collections

  const CAP: nat := 100

  datatype Event = Event(id: nat, createdAt: int, text: string)

  predicate Newer(a: Event, b: Event) {
    a.createdAt > b.createdAt || (a.createdAt == b.createdAt && a.id > b.id)
  }

  function NewerThan(s: set<Event>, x: Event): set<Event> {
    set y | y in s && Newer(y, x)
  }

  /** The `n` newest of `s`: fewer than `n` are newer. */
  function Top(s: set<Event>, n: nat): set<Event> {
    set x | x in s && |NewerThan(s, x)| < n
  }

  predicate DistinctIds(s: set<Event>) {
    forall a, b :: a in s && b in s && a.id == b.id ==> a == b
  }

  /** Whatever is newer than a kept event is kept. */
  lemma TopClosed(s: set<Event>, n: nat, x: Event)
    requires x in Top(s, n)
    ensures NewerThan(s, x) <= Top(s, n) && NewerThan(Top(s, n), x) == NewerThan(s, x)
  {
    forall y | y in NewerThan(s, x)
      ensures y in Top(s, n)
    {
      SubsetSmaller(NewerThan(s, y), NewerThan(s, x));
    }
  }

  lemma NewestExists(s: set<Event>) returns (m: Event)
    requires DistinctIds(s) && s != {}
    ensures m in s && NewerThan(s, m) == {}
    decreases |s|
  {
    var x :| x in s;
    if NewerThan(s, x) == {} {
      m := x;
    } else {
      SubsetSmaller(NewerThan(s, x), s - {x});
      m := NewestExists(NewerThan(s, x));
      assert forall y :: y in NewerThan(s, m) ==> y in NewerThan(NewerThan(s, x), m);
    }
  }

  /** Taking the newest off first. */
  lemma TopStep(s: set<Event>, n: nat, m: Event)
    requires DistinctIds(s) && m in s && NewerThan(s, m) == {} && n > 0
    ensures Top(s, n) == {m} + Top(s - {m}, n - 1) && m !in Top(s - {m}, n - 1)
  {
    forall x | x in s && x != m
      ensures NewerThan(s, x) == {m} + NewerThan(s - {m}, x)
    {
      assert Newer(m, x) || x in NewerThan(s, m);
    }
    forall x | x in s
      ensures x in Top(s, n) <==> x == m || x in Top(s - {m}, n - 1)
    {
      assert x != m ==> |NewerThan(s, x)| == 1 + |NewerThan(s - {m}, x)|;
    }
  }

  lemma {:induction false} TopCount(s: set<Event>, n: nat)
    requires DistinctIds(s)
    ensures |Top(s, n)| == if |s| < n then |s| else n
    decreases n
  {
    hide *;
    if n == 0 || s == {} {
      TopNone(s, n);
    } else {
      var m := NewestWithin(s);
      TopStep(s, n, m);
      TopCount(s - {m}, n - 1);
      CountOneMore(s, Top(s, n), Top(s - {m}, n - 1), m);
    }
  }

  lemma NewestWithin(s: set<Event>) returns (m: Event)
    requires DistinctIds(s) && s != {}
    ensures m in s && NewerThan(s, m) == {} && DistinctIds(s - {m})
  {
    m := NewestExists(s);
  }

  lemma TopNone(s: set<Event>, n: nat)
    requires n == 0 || s == {}
    ensures Top(s, n) == {} && (s == {} ==> |s| == 0)
  {
  }

  lemma CountOneMore(s: set<Event>, top: set<Event>, rest: set<Event>, m: Event)
    requires m in s && top == {m} + rest && m !in rest
    ensures |top| == 1 + |rest| && |s - {m}| == |s| - 1
  {
  }

  /** Trimming first loses nothing: the newest `n` after an insert are found among the newest `n` before it. */
  lemma TrimThenInsert(s: set<Event>, e: Event, n: nat)
    requires DistinctIds(s + {e}) && e !in s
    ensures Top(Top(s, n) + {e}, n) == Top(s + {e}, n)
  {
    var kept := Top(s, n);
    forall x | x in s
      ensures x in Top(kept + {e}, n) <==> x in Top(s + {e}, n)
    {
      if x in kept {
        TopClosed(s, n, x);
        assert NewerThan(kept + {e}, x) == NewerThan(s + {e}, x);
      } else {
        SubsetSmaller(NewerThan(s, x), NewerThan(s + {e}, x));
      }
    }
    NewcomerRank(s, e, n);
  }

  lemma NewcomerRank(s: set<Event>, e: Event, n: nat)
    requires DistinctIds(s + {e}) && e !in s
    ensures e in Top(Top(s, n) + {e}, n) <==> e in Top(s + {e}, n)
  {
    var kept := Top(s, n);
    assert NewerThan(s + {e}, e) == NewerThan(s, e) && NewerThan(kept + {e}, e) == NewerThan(kept, e);
    if |NewerThan(s, e)| < n {
      forall y | y in NewerThan(s, e)
        ensures y in kept
      {
        SubsetSmaller(NewerThan(s, y), NewerThan(s, e));
      }
      assert NewerThan(kept, e) == NewerThan(s, e);
    } else {
      forall x | x in kept
        ensures Newer(x, e)
      {
        if !Newer(x, e) {
          SubsetSmaller(NewerThan(s, e), NewerThan(s, x));
        }
      }
      assert NewerThan(kept, e) == kept;
      SubsetSmaller(NewerThan(s, e), s);
      TopCount(s, n);
    }
  }

  lemma TopOfTop(s: set<Event>, n: nat, k: nat)
    requires k <= n
    ensures Top(Top(s, n), k) == Top(s, k)
  {
    forall x | x in Top(s, n)
      ensures NewerThan(Top(s, n), x) == NewerThan(s, x)
    {
      TopClosed(s, n, x);
    }
  }

  /** What a recent-events query gives: the newest up to the limit, newest first. */
  ghost predicate IsRecent(s: set<Event>, limit: nat, out: seq<Event>) {
    && (forall i, j :: 0 <= i < j < |out| ==> Newer(out[i], out[j]))
    && (forall x :: x in out <==> x in Top(s, limit))
  }

  /** A recent query of up to 100 events cannot tell the trimmed log from the untrimmed one. */
  lemma TrimmingUnseen(s: set<Event>, limit: nat, out: seq<Event>)
    requires limit <= 100
    ensures IsRecent(Top(s, 100), limit, out) <==> IsRecent(s, limit, out)
  {
    TopOfTop(s, CAP, limit);
  }

  method Newest(s: set<Event>) returns (m: Event)
    requires DistinctIds(s) && s != {}
    ensures m in s && forall y :: y in s && y != m ==> Newer(m, y)
  {
    m :| m in s;
    var left := s - {m};
    while left != {}
      invariant left <= s && m in s && m !in left
      invariant forall y :: y in s && y != m && y !in left ==> Newer(m, y)
      decreases left
    {
      var y :| y in left;
      left := left - {y};
      if Newer(y, m) {
        m := y;
      }
    }
  }

  function Members(out: seq<Event>): set<Event> {
    set x | x in out
  }

  lemma {:induction false} MembersCount(out: seq<Event>)
    requires forall i, j :: 0 <= i < j < |out| ==> Newer(out[i], out[j])
    ensures |Members(out)| == |out|
  {
    if out != [] {
      var n := |out| - 1;
      MembersCount(out[..n]);
      assert Members(out) == Members(out[..n]) + {out[n]};
    }
  }

  /** Listing a set newest first, up to a limit, lists its newest. */
  lemma ListIsTop(all: set<Event>, left: set<Event>, limit: nat, out: seq<Event>)
    requires |out| <= limit && (|out| < limit ==> left == {})
    requires forall i, j :: 0 <= i < j < |out| ==> Newer(out[i], out[j])
    requires forall i, x :: 0 <= i < |out| && x in left ==> Newer(out[i], x)
    requires forall x :: x in all <==> x in out || x in left
    ensures forall x :: x in out <==> x in Top(all, limit)
  {
    forall i | 0 <= i < |out|
      ensures out[i] in Top(all, limit)
    {
      assert NewerThan(all, out[i]) == Members(out[..i]);
      MembersCount(out[..i]);
    }
    forall x | x in left
      ensures x !in Top(all, limit) || x in out
    {
      MembersCount(out);
      SubsetSmaller(Members(out), NewerThan(all, x));
    }
  }

  /** The newest first, up to the limit, and what is left. */
  method Listed(all: set<Event>, limit: nat) returns (out: seq<Event>, left: set<Event>)
    requires DistinctIds(all)
    ensures |out| <= limit && (|out| < limit ==> left == {})
    ensures forall i, j :: 0 <= i < j < |out| ==> Newer(out[i], out[j])
    ensures forall i, x :: 0 <= i < |out| && x in left ==> Newer(out[i], x)
    ensures forall x :: x in all <==> x in out || x in left
    ensures |left| + |out| == |all|
  {
    out, left := [], all;
    while |out| < limit && left != {}
      invariant |out| <= limit && left <= all
      invariant forall i, j :: 0 <= i < j < |out| ==> Newer(out[i], out[j])
      invariant forall i, x :: 0 <= i < |out| && x in left ==> Newer(out[i], x)
      invariant forall x :: x in all <==> x in out || x in left
      invariant |left| + |out| == |all|
      decreases |left|
    {
      var m := Newest(left);
      out := out + [m];
      left := left - {m};
    }
  }

  class SyncEvents {
    var rows: set<Event>
    var nextId: nat
    /** Everything ever recorded. */
    ghost var recorded: set<Event>

    ghost predicate Valid()
      reads this
    {
      && rows == Top(recorded, 100)
      && DistinctIds(recorded)
      && forall e :: e in recorded ==> e.id < nextId
    }

    constructor ()
      ensures Valid() && recorded == {}
    {
      rows, nextId, recorded := {}, 1, {};
    }

    /** `now` may lie before earlier events: the new one may then be trimmed at once. */
    method Record(now: int, text: string)
      requires Valid()
      modifies this
      ensures Valid()
      ensures recorded == old(recorded) + {Event(old(nextId), now, text)}
      ensures rows == Top(recorded, 100)
    {
      var e := Event(nextId, now, text);
      TrimThenInsert(recorded, e, CAP);
      hide Top;
      rows, nextId := rows + {e}, nextId + 1;
      recorded := recorded + {e};
      rows := Top(rows, CAP);
    }

    method Recent(limit: nat) returns (out: seq<Event>)
      requires Valid()
      ensures IsRecent(rows, limit, out)
      ensures limit <= 100 ==> IsRecent(recorded, limit, out)
      ensures |out| == if |rows| < limit then |rows| else limit
    {
      var left;
      out, left := Listed(rows, limit);
      ListIsTop(rows, left, limit, out);
      if limit <= CAP {
        TrimmingUnseen(recorded, limit, out);
      }
    }
  }
}
