/** The two eviction selections of one audit run: the capacity evictor
    (main.py:477-529) and the inactivity evictor (main.py:537-579). */
module Eviction {
  import opened Snapshot
  import opened Seqs
  import opened StableSort
  import opened Activity

  const SecondsPerDay := 86400

  /** The ids the keepalive loop collects: every pinned thread of the
      snapshot, whatever happens to it there. */
  function PinnedIds(threads: seq<Thread>): (ids: set<int>)
    ensures forall t :: t in threads && t.pinned ==> t.id in ids
    ensures forall id :: id in ids ==> exists t :: t in threads && t.pinned && t.id == id
  {
    set i | 0 <= i < |threads| && threads[i].pinned :: threads[i].id
  }

  /** Threads over the cap. Every listed thread counts, pinned and locked
      ones included. */
  function KillCount(threads: seq<Thread>, maxActiveThreads: int): int {
    |threads| - maxActiveThreads
  }

  /** The capacity candidate test. The monitored-only branch is dead in the
      running program: the settings constructor always clears the flag. */
  predicate IsCapacityCandidate(pinnedIds: set<int>, onlyMonitored: bool, monitored: seq<int>, t: Thread) {
    && t.id !in pinnedIds
    && (onlyMonitored ==> t.parentId in monitored)
    && !t.locked
  }

  function CapacityCandidates(threads: seq<Thread>, onlyMonitored: bool, monitored: seq<int>): seq<Thread> {
    var pinned := PinnedIds(threads);
    Filter(threads, t => IsCapacityCandidate(pinned, onlyMonitored, monitored, t))
  }

  /** The capacity selection: nothing when nothing is over the cap;
      otherwise the first `kill` entries of the stable ascending sort by
      activity (a slice, so all of them when there are fewer). */
  function CapacitySelection(kill: int, resolved: seq<Entry>): seq<Entry> {
    if kill <= 0 then []
    else
      var sorted := SortByActivity(resolved);
      sorted[..if kill < |sorted| then kill else |sorted|]
  }

  predicate IsPrefix(a: seq<Entry>, b: seq<Entry>) {
    |a| <= |b| && b[..|a|] == a
  }

  /** A prefix holds no more of any entry than the whole list. */
  lemma SliceMultiset(s: seq<Entry>, k: nat)
    requires k <= |s|
    ensures multiset(s[..k]) <= multiset(s)
  {
    assert s == s[..k] + s[k..];
  }

  /** The capacity phase archives min(kill, #candidates) of them, and none
      when nothing is over the cap. */
  lemma CapacitySelectionSize(kill: int, resolved: seq<Entry>)
    ensures |CapacitySelection(kill, resolved)| ==
      if kill <= 0 then 0 else if kill < |resolved| then kill else |resolved|
    ensures multiset(CapacitySelection(kill, resolved)) <= multiset(resolved)
  {
    if kill > 0 {
      var sorted := SortByActivity(resolved);
      var k := if kill < |sorted| then kill else |sorted|;
      SliceMultiset(sorted, k);
    }
  }

  /** The candidates the capacity phase leaves active, in sorted order. */
  function CapacityRemainder(kill: int, resolved: seq<Entry>): seq<Entry> {
    var sorted := SortByActivity(resolved);
    if kill <= 0 then sorted
    else sorted[if kill < |sorted| then kill else |sorted|..]
  }

  /** The selection and the remainder split the candidates, and every
      selected entry is no newer than every entry left behind. */
  lemma CapacitySelectsOldest(kill: int, resolved: seq<Entry>)
    ensures multiset(CapacitySelection(kill, resolved)) + multiset(CapacityRemainder(kill, resolved)) == multiset(resolved)
    ensures forall x, y :: x in CapacitySelection(kill, resolved) && y in CapacityRemainder(kill, resolved) ==>
      x.Stamp() <= y.Stamp()
  {
    var sorted := SortByActivity(resolved);
    var k := if kill <= 0 then 0 else if kill < |sorted| then kill else |sorted|;
    var picked, rest := sorted[..k], sorted[k..];
    assert picked == CapacitySelection(kill, resolved);
    assert rest == CapacityRemainder(kill, resolved);
    assert sorted == picked + rest;
    forall x: Entry, y: Entry | x in picked && y in rest ensures x.Stamp() <= y.Stamp() {
      var i :| 0 <= i < k && picked[i] == x;
      var j :| 0 <= j < |rest| && rest[j] == y;
      assert sorted[i] == x && sorted[k + j] == y;
    }
  }

  /** Ties keep snapshot order: for every stamp, the selected entries with
      that stamp are the earliest candidates with that stamp. */
  lemma CapacityTiesKeepOrder(kill: int, resolved: seq<Entry>, v: int)
    ensures IsPrefix(WithStamp(CapacitySelection(kill, resolved), v), WithStamp(resolved, v))
  {
    if kill > 0 {
      var sorted := SortByActivity(resolved);
      var k := if kill < |sorted| then kill else |sorted|;
      assert sorted == sorted[..k] + sorted[k..];
      WithStampAppend(sorted[..k], sorted[k..], v);
      SortKeepsStampOrder(resolved, v);
    }
  }

  /** Pinned and locked threads are never archived by the capacity phase,
      and only listed threads are. */
  lemma CapacityNeverPicksPinnedOrLocked(threads: seq<Thread>, onlyMonitored: bool, monitored: seq<int>,
                                         kill: int, outcomes: seq<FetchOutcome>, now: int)
    requires |outcomes| == |CapacityCandidates(threads, onlyMonitored, monitored)|
    ensures forall e :: e in CapacitySelection(kill, ResolveAll(CapacityCandidates(threads, onlyMonitored, monitored), outcomes, now)) ==>
      e.thread in threads && !e.thread.pinned && !e.thread.locked
  {
    var candidates := CapacityCandidates(threads, onlyMonitored, monitored);
    var resolved := ResolveAll(candidates, outcomes, now);
    CapacitySelectionSize(kill, resolved);
    ResolveAllKeepsThreads(candidates, outcomes, now);
    forall e | e in CapacitySelection(kill, resolved)
      ensures e.thread in threads && !e.thread.pinned && !e.thread.locked
    {
      assert e in multiset(resolved);
      var i :| 0 <= i < |resolved| && resolved[i] == e;
      assert Threads(resolved)[i] == e.thread;
      assert e.thread in candidates;
    }
  }

  /** The inactivity candidate test, on the snapshot's own flags. */
  predicate IsInactivityCandidate(pinnedIds: set<int>, monitored: seq<int>, t: Thread) {
    && t.parentId in monitored
    && t.id !in pinnedIds
    && !t.archived
    && !t.locked
  }

  function InactivityCandidates(threads: seq<Thread>, monitored: seq<int>): seq<Thread> {
    var pinned := PinnedIds(threads);
    Filter(threads, t => IsInactivityCandidate(pinned, monitored, t))
  }

  function InactivityThreshold(now: int, days: int): int {
    now - days * SecondsPerDay
  }

  /** The inactivity selection; the phase is off unless `days` is positive. */
  function InactivitySelection(days: int, now: int, resolved: seq<Entry>): seq<Entry> {
    if days <= 0 then []
    else Filter(resolved, (e: Entry) => e.Stamp() < InactivityThreshold(now, days))
  }

  /** An entry is selected for inactivity iff the phase is on and its stamp
      is strictly earlier than the cutoff, now minus the configured days. */
  lemma InactivitySelectionIff(days: int, now: int, resolved: seq<Entry>, e: Entry)
    ensures e in InactivitySelection(days, now, resolved) <==>
      days > 0 && e in resolved && e.Stamp() < InactivityThreshold(now, days)
  {
    if days > 0 && e in resolved && e.Stamp() < InactivityThreshold(now, days) {
      FilterKeeps(resolved, (e: Entry) => e.Stamp() < InactivityThreshold(now, days), e);
    }
  }

  /** The inactivity phase only archives listed threads of a monitored
      channel that are neither pinned, archived nor locked. */
  lemma InactivityNeverPicksExempt(threads: seq<Thread>, monitored: seq<int>, days: int, now: int,
                                   outcomes: seq<FetchOutcome>, fetchNow: int)
    requires |outcomes| == |InactivityCandidates(threads, monitored)|
    ensures forall e :: e in InactivitySelection(days, now, ResolveAll(InactivityCandidates(threads, monitored), outcomes, fetchNow)) ==>
      && e.thread in threads && e.thread.parentId in monitored
      && !e.thread.pinned && !e.thread.archived && !e.thread.locked
  {
    var candidates := InactivityCandidates(threads, monitored);
    var resolved := ResolveAll(candidates, outcomes, fetchNow);
    ResolveAllKeepsThreads(candidates, outcomes, fetchNow);
    forall e | e in InactivitySelection(days, now, resolved)
      ensures e.thread in threads && e.thread.parentId in monitored
      ensures !e.thread.pinned && !e.thread.archived && !e.thread.locked
    {
      var i :| 0 <= i < |resolved| && resolved[i] == e;
      assert Threads(resolved)[i] == e.thread;
      assert e.thread in candidates;
    }
  }

  /** Nothing keeps a thread archived by the capacity phase out of the
      inactivity phase: the snapshot's flags are not refreshed in between. */
  lemma BothPhasesCanPickOneThread()
    ensures var t := Thread(1, 7, false, false, false, Some(0));
      var e := Entry(t, Known(0));
      && e in CapacitySelection(KillCount([t], 0), ResolveAll(CapacityCandidates([t], false, []), [Found(0)], 0))
      && e in InactivitySelection(1, SecondsPerDay + 1, ResolveAll(InactivityCandidates([t], [7]), [Found(0)], 0))
  {
    var t := Thread(1, 7, false, false, false, Some(0));
    assert PinnedIds([t]) == {};
    assert CapacityCandidates([t], false, []) == [t];
    assert InactivityCandidates([t], [7]) == [t];
  }
}
