/** Resolution of the last activity of each thread from the outcome of its
    history fetch (`_get_last_message_task` and `_get_last_message`). */
module Activity {
  import opened Snapshot

  /** The fallback stamp: the thread's creation time, or the clock reading
      when the platform reports none. */
  function CreationOr(t: Thread, now: int): int {
    match t.createdAt
    case Some(c) => c
    case None => now
  }

  /** The activity of one thread: the newest message when one was found,
      the fallback on an empty history, a permission error or any other
      error. A thread is never dropped. */
  function Resolve(t: Thread, outcome: FetchOutcome, now: int): (a: LastActivity)
    ensures a.Known? <==> outcome.Found?
    ensures outcome.Found? ==> a.Stamp() == outcome.ts
    ensures !outcome.Found? ==> a.Stamp() == CreationOr(t, now)
  {
    match outcome
    case Found(ts) => Known(ts)
    case NoMessages => Unknown(CreationOr(t, now))
    case Forbidden => Unknown(CreationOr(t, now))
    case Failed => Unknown(CreationOr(t, now))
  }

  /** The fan-out over a list of threads, zipped with the fetch outcomes in
      input order. */
  function ResolveAll(threads: seq<Thread>, outcomes: seq<FetchOutcome>, now: int): seq<Entry>
    requires |outcomes| == |threads|
  {
    if |threads| == 0 then []
    else [Entry(threads[0], Resolve(threads[0], outcomes[0], now))]
         + ResolveAll(threads[1..], outcomes[1..], now)
  }

  /** Exactly one entry per input thread, in input order, each carrying the
      activity resolved from that thread's own fetch outcome. */
  lemma {:induction false} ResolveAllPairs(threads: seq<Thread>, outcomes: seq<FetchOutcome>, now: int)
    requires |outcomes| == |threads|
    ensures |ResolveAll(threads, outcomes, now)| == |threads|
    ensures forall i :: 0 <= i < |threads| ==>
      ResolveAll(threads, outcomes, now)[i] == Entry(threads[i], Resolve(threads[i], outcomes[i], now))
  {
    if threads != [] {
      ResolveAllPairs(threads[1..], outcomes[1..], now);
    }
  }

  /** No thread is lost or reordered by the resolution. */
  lemma ResolveAllKeepsThreads(threads: seq<Thread>, outcomes: seq<FetchOutcome>, now: int)
    requires |outcomes| == |threads|
    ensures Threads(ResolveAll(threads, outcomes, now)) == threads
  {
    ResolveAllPairs(threads, outcomes, now);
  }

  /** Number of fetches that found a message (the success counter's step). */
  function CountFound(outcomes: seq<FetchOutcome>): (n: nat)
    ensures n <= |outcomes|
  {
    if |outcomes| == 0 then 0
    else (if outcomes[0].Found? then 1 else 0) + CountFound(outcomes[1..])
  }

  /** Entries with a Known activity are exactly those whose fetch found a
      message, so the two counters together count every thread once. */
  lemma {:induction false} KnownCountMatches(threads: seq<Thread>, outcomes: seq<FetchOutcome>, now: int)
    requires |outcomes| == |threads|
    ensures CountKnown(ResolveAll(threads, outcomes, now)) == CountFound(outcomes)
  {
    if threads != [] {
      KnownCountMatches(threads[1..], outcomes[1..], now);
    }
  }

  function CountKnown(entries: seq<Entry>): nat {
    if |entries| == 0 then 0
    else (if entries[0].activity.Known? then 1 else 0) + CountKnown(entries[1..])
  }
}
