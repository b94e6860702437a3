/** The debounce of a live document: a poll writes only what has stopped changing. */
module LiveSync {

  const U32_MAX: nat := 0xFFFF_FFFF

  datatype Tick = Changed | Write | Idle

  datatype Watch = Watch(lastSeen: string, stable: nat)

  function Next(w: Watch, current: string, lastWritten: string): (Watch, Tick) {
    if current == w.lastSeen then
      var stable := if w.stable < U32_MAX then w.stable + 1 else U32_MAX;
      (Watch(w.lastSeen, stable), if current != lastWritten && stable >= 2 then Write else Idle)
    else (Watch(current, 0), Changed)
  }

  datatype Poll = Poll(current: string, lastWritten: string)

  /** The watch after some polls, starting from one text with no poll counted. */
  function Watched(first: string, polls: seq<Poll>): Watch {
    if polls == [] then Watch(first, 0)
    else
      var last := polls[|polls| - 1];
      Next(Watched(first, polls[..|polls| - 1]), last.current, last.lastWritten).0
  }

  /** What the last of the polls reports. */
  function Reported(first: string, polls: seq<Poll>): Tick
    requires polls != []
  {
    var last := polls[|polls| - 1];
    Next(Watched(first, polls[..|polls| - 1]), last.current, last.lastWritten).1
  }

  /** The text at observation `i`; observation 0 is the text the watch started from. */
  function Observed(first: string, polls: seq<Poll>, i: nat): string
    requires i <= |polls|
  {
    if i == 0 then first else polls[i - 1].current
  }

  lemma {:induction false} WatchMeaning(first: string, polls: seq<Poll>)
    ensures var w := Watched(first, polls);
            var n := |polls|;
            && w.lastSeen == Observed(first, polls, n)
            && (w.stable >= 1 <==> n >= 1 && Observed(first, polls, n - 1) == w.lastSeen)
            && (w.stable >= 2 <==>
                  && n >= 2 && Observed(first, polls, n - 1) == w.lastSeen
                  && Observed(first, polls, n - 2) == w.lastSeen)
  {
    if polls != [] {
      var earlier := polls[..|polls| - 1];
      WatchMeaning(first, earlier);
      assert forall i: nat :: i <= |earlier| ==> Observed(first, earlier, i) == Observed(first, polls, i);
    }
  }

  /** A poll writes exactly when its text differs from what was written and the two observations before it showed
      the same text; it reports a change exactly when the one before showed another. */
  lemma WritesWhenSettled(first: string, polls: seq<Poll>)
    requires polls != []
    ensures var n := |polls|;
            var now := polls[n - 1];
            && (Reported(first, polls) == Write <==>
                  && n >= 2 && now.current != now.lastWritten
                  && Observed(first, polls, n - 1) == now.current && Observed(first, polls, n - 2) == now.current)
            && (Reported(first, polls) == Changed <==> Observed(first, polls, n - 1) != now.current)
  {
    var earlier := polls[..|polls| - 1];
    WatchMeaning(first, earlier);
    assert forall i: nat :: i <= |earlier| ==> Observed(first, earlier, i) == Observed(first, polls, i);
  }

  method LiveSyncTick(current: string, lastSeen: string, lastWritten: string, stable: nat)
    returns (tick: Tick, seen: string, count: nat)
    requires stable <= U32_MAX
    ensures (Watch(seen, count), tick) == Next(Watch(lastSeen, stable), current, lastWritten)
    ensures seen == current
    ensures count == if current != lastSeen then 0 else if stable < 0xFFFF_FFFF then stable + 1 else 0xFFFF_FFFF
  {
    seen, count := lastSeen, stable;
    if current == seen {
      count := if count < U32_MAX then count + 1 else U32_MAX;
      if current != lastWritten && count >= 2 {
        return Write, seen, count;
      }
      return Idle, seen, count;
    }
    return Changed, current, 0;
  }
}
