/** The pinned-thread keepalive loop (main.py:422-470): the decision for
    each listed thread and the bump records it leaves behind. Bump records
    map a thread id to the time of its last successful bump. */
module Keepalive {
  import opened Snapshot

  /** The self-trust window, 48 hours in seconds. */
  const SelfTrustSeconds := 48 * 3600

  datatype KeepaliveAction =
    | NotPinned       // skipped: only pinned threads are handled
    | Unarchive       // archived pinned thread: un-archived, nothing else
    | TrustedFresh    // bumped within the window: skipped
    | BumpByMessage   // unlocked: post a message and delete it
    | BumpByEdit      // locked: re-apply the lock to refresh activity

  predicate IsBump(a: KeepaliveAction) {
    a == BumpByMessage || a == BumpByEdit
  }

  /** What the loop does with thread `t` given the records at that point. */
  function Decide(records: map<int, int>, t: Thread, now: int): KeepaliveAction {
    if !t.pinned then NotPinned
    else if t.archived then Unarchive
    else if t.id in records && now - records[t.id] < SelfTrustSeconds then TrustedFresh
    else if !t.locked then BumpByMessage
    else BumpByEdit
  }

  /** One iteration. `ok` says whether the bump call went through; on an
      exception the record is left as it was. */
  function Step(records: map<int, int>, t: Thread, ok: bool, now: int): map<int, int> {
    if IsBump(Decide(records, t, now)) && ok then records[t.id := now] else records
  }

  /** The whole loop, in listing order. */
  function Run(records: map<int, int>, threads: seq<Thread>, oks: seq<bool>, now: int): map<int, int>
    requires |oks| == |threads|
    decreases |threads|
  {
    if |threads| == 0 then records
    else Run(Step(records, threads[0], oks[0], now), threads[1..], oks[1..], now)
  }

  /** The action taken on each listed thread, in listing order. */
  function Trace(records: map<int, int>, threads: seq<Thread>, oks: seq<bool>, now: int): (r: seq<KeepaliveAction>)
    requires |oks| == |threads|
    ensures |r| == |threads|
    decreases |threads|
  {
    if |threads| == 0 then []
    else [Decide(records, threads[0], now)] + Trace(Step(records, threads[0], oks[0], now), threads[1..], oks[1..], now)
  }

  /** One step of the loop from position `i` of the listing. */
  lemma RunUnfold(records: map<int, int>, threads: seq<Thread>, oks: seq<bool>, now: int, i: int)
    requires |oks| == |threads| && 0 <= i < |threads|
    ensures Run(records, threads[i..], oks[i..], now) ==
      Run(Step(records, threads[i], oks[i], now), threads[i + 1..], oks[i + 1..], now)
    ensures Trace(records, threads[i..], oks[i..], now) ==
      [Decide(records, threads[i], now)] + Trace(Step(records, threads[i], oks[i], now), threads[i + 1..], oks[i + 1..], now)
  {
    assert threads[i..][0] == threads[i] && threads[i..][1..] == threads[i + 1..];
    assert oks[i..][0] == oks[i] && oks[i..][1..] == oks[i + 1..];
  }

  /** The keepalive loop's invariant survives one iteration: what is left
      to run from position `i` is one step followed by the rest. */
  lemma LoopStep(start: map<int, int>, records: map<int, int>, threads: seq<Thread>, oks: seq<bool>,
                 now: int, i: int, actions: seq<KeepaliveAction>)
    requires |oks| == |threads| && 0 <= i < |threads|
    requires Run(records, threads[i..], oks[i..], now) == Run(start, threads, oks, now)
    requires actions + Trace(records, threads[i..], oks[i..], now) == Trace(start, threads, oks, now)
    ensures Run(Step(records, threads[i], oks[i], now), threads[i + 1..], oks[i + 1..], now) == Run(start, threads, oks, now)
    ensures (actions + [Decide(records, threads[i], now)]) +
      Trace(Step(records, threads[i], oks[i], now), threads[i + 1..], oks[i + 1..], now) == Trace(start, threads, oks, now)
  {
    RunUnfold(records, threads, oks, now, i);
    var rest := Trace(Step(records, threads[i], oks[i], now), threads[i + 1..], oks[i + 1..], now);
    assert actions + ([Decide(records, threads[i], now)] + rest) == (actions + [Decide(records, threads[i], now)]) + rest;
  }

  /** A refresh is due: no record, or the record is at least 48 hours old. */
  predicate Due(records: map<int, int>, id: int, now: int) {
    id !in records || now - records[id] >= SelfTrustSeconds
  }

  /** Some listed pinned, unarchived thread with this id was bumped successfully. */
  predicate BumpedSomewhere(threads: seq<Thread>, oks: seq<bool>, id: int)
    requires |oks| == |threads|
  {
    exists i :: 0 <= i < |threads| && threads[i].id == id && threads[i].pinned && !threads[i].archived && oks[i]
  }

  /** Records are never dropped; a record changes only to `now`, only when
      it was due, and only because a pinned, unarchived thread with that id
      was bumped without error. */
  lemma {:induction false} RunOnlyRefreshesDue(records: map<int, int>, threads: seq<Thread>, oks: seq<bool>, now: int)
    requires |oks| == |threads|
    ensures records.Keys <= Run(records, threads, oks, now).Keys
    ensures forall id :: id in Run(records, threads, oks, now) ==>
      || (id in records && Run(records, threads, oks, now)[id] == records[id])
      || (Run(records, threads, oks, now)[id] == now && Due(records, id, now) && BumpedSomewhere(threads, oks, id))
    decreases |threads|
  {
    if threads != [] {
      var t, next := threads[0], Step(records, threads[0], oks[0], now);
      RunOnlyRefreshesDue(next, threads[1..], oks[1..], now);
      var r := Run(records, threads, oks, now);
      forall id | id in r
        ensures || (id in records && r[id] == records[id])
                || (r[id] == now && Due(records, id, now) && BumpedSomewhere(threads, oks, id))
      {
        if id in next && r[id] == next[id] {
          if !(id in records && next[id] == records[id]) {
            assert id == t.id && IsBump(Decide(records, t, now)) && oks[0];
            assert threads[0].id == id && threads[0].pinned && !threads[0].archived;
          }
        } else {
          var i :| 0 <= i < |threads[1..]| && threads[1..][i].id == id && threads[1..][i].pinned
                   && !threads[1..][i].archived && oks[1..][i];
          assert threads[i + 1].id == id && oks[i + 1];
        }
      }
    }
  }

  /** Once a record reads `now`, the rest of the loop keeps it there. */
  lemma {:induction false} RunKeepsNow(records: map<int, int>, threads: seq<Thread>, oks: seq<bool>, now: int, id: int)
    requires |oks| == |threads|
    requires id in records && records[id] == now
    ensures id in Run(records, threads, oks, now) && Run(records, threads, oks, now)[id] == now
    decreases |threads|
  {
    if threads != [] {
      RunKeepsNow(Step(records, threads[0], oks[0], now), threads[1..], oks[1..], now, id);
    }
  }

  /** Every pinned, unarchived thread whose refresh was due and whose bump
      went through ends with its record set to `now`. */
  lemma {:induction false} RunRefreshesEveryDue(records: map<int, int>, threads: seq<Thread>, oks: seq<bool>, now: int, i: int)
    requires |oks| == |threads|
    requires 0 <= i < |threads| && threads[i].pinned && !threads[i].archived && oks[i]
    requires Due(records, threads[i].id, now)
    ensures threads[i].id in Run(records, threads, oks, now) && Run(records, threads, oks, now)[threads[i].id] == now
    decreases |threads|
  {
    var t, next := threads[0], Step(records, threads[0], oks[0], now);
    var id := threads[i].id;
    if i == 0 {
      RunKeepsNow(next, threads[1..], oks[1..], now, id);
    } else if id in next && next[id] == now {
      RunKeepsNow(next, threads[1..], oks[1..], now, id);
    } else {
      assert threads[1..][i - 1] == threads[i];
      RunRefreshesEveryDue(next, threads[1..], oks[1..], now, i - 1);
    }
  }

  /** Records of ids that belong to no listed pinned thread are untouched. */
  lemma RunLeavesOthers(records: map<int, int>, threads: seq<Thread>, oks: seq<bool>, now: int, id: int)
    requires |oks| == |threads|
    requires forall i :: 0 <= i < |threads| && threads[i].id == id ==> !threads[i].pinned
    ensures id in Run(records, threads, oks, now) <==> id in records
    ensures id in records ==> Run(records, threads, oks, now)[id] == records[id]
  {
    RunOnlyRefreshesDue(records, threads, oks, now);
  }

  /** The trace and the records agree: a thread gets a bump action exactly
      when it is pinned, unarchived and due at its turn; archived pinned
      threads get only an un-archive. */
  lemma {:induction false} TraceDecisions(records: map<int, int>, threads: seq<Thread>, oks: seq<bool>, now: int, i: int)
    requires |oks| == |threads|
    requires 0 <= i < |threads|
    ensures threads[i].pinned && threads[i].archived ==> Trace(records, threads, oks, now)[i] == Unarchive
    ensures !threads[i].pinned ==> Trace(records, threads, oks, now)[i] == NotPinned
    ensures IsBump(Trace(records, threads, oks, now)[i]) ==> threads[i].pinned && !threads[i].archived
    ensures IsBump(Trace(records, threads, oks, now)[i]) ==> (Trace(records, threads, oks, now)[i] == BumpByEdit <==> threads[i].locked)
    decreases |threads|
  {
    if i > 0 {
      TraceDecisions(Step(records, threads[0], oks[0], now), threads[1..], oks[1..], now, i - 1);
    }
  }

  /** The action at position `i` is the decision taken on the records the
      loop has built from the threads before it. */
  lemma {:induction false} TraceAtTurn(records: map<int, int>, threads: seq<Thread>, oks: seq<bool>, now: int, i: int)
    requires |oks| == |threads|
    requires 0 <= i < |threads|
    ensures Trace(records, threads, oks, now)[i] == Decide(Run(records, threads[..i], oks[..i], now), threads[i], now)
    decreases |threads|
  {
    if i > 0 {
      var next := Step(records, threads[0], oks[0], now);
      TraceAtTurn(next, threads[1..], oks[1..], now, i - 1);
      assert threads[..i][0] == threads[0] && threads[..i][1..] == threads[1..][..i - 1];
      assert oks[..i][0] == oks[0] && oks[..i][1..] == oks[1..][..i - 1];
      assert threads[1..][i - 1] == threads[i];
    }
  }

  /** The 48-hour window governs the bump itself, whether or not the call
      then went through: thread `i` gets a bump exactly when it is pinned,
      unarchived and due on the records left by the threads before it. */
  lemma BumpIffDueAtTurn(records: map<int, int>, threads: seq<Thread>, oks: seq<bool>, now: int, i: int)
    requires |oks| == |threads|
    requires 0 <= i < |threads|
    ensures IsBump(Trace(records, threads, oks, now)[i]) <==>
      threads[i].pinned && !threads[i].archived && Due(Run(records, threads[..i], oks[..i], now), threads[i].id, now)
  {
    TraceAtTurn(records, threads, oks, now, i);
  }

  /** Thread ids are distinct in a listing of the guild's active threads. */
  predicate DistinctIds(threads: seq<Thread>) {
    forall j, k :: 0 <= j < k < |threads| ==> threads[j].id != threads[k].id
  }

  /** With distinct ids, a listed thread is bumped exactly when it is pinned,
      unarchived and due on the records the run started from. */
  lemma BumpIffDue(records: map<int, int>, threads: seq<Thread>, oks: seq<bool>, now: int, i: int)
    requires |oks| == |threads| && DistinctIds(threads)
    requires 0 <= i < |threads|
    ensures IsBump(Trace(records, threads, oks, now)[i]) <==>
      threads[i].pinned && !threads[i].archived && Due(records, threads[i].id, now)
  {
    var id := threads[i].id;
    assert forall j :: 0 <= j < |threads[..i]| ==> threads[..i][j].id != id;
    RunLeavesOthers(records, threads[..i], oks[..i], now, id);
    BumpIffDueAtTurn(records, threads, oks, now, i);
  }
}
