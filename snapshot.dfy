/** The values one audit run works on: the listed threads, the outcome of a
    history fetch, and the resolved last activity of a thread.
    Every timestamp is an integer number of seconds. */
module Snapshot {

  datatype Option<+T> = None | Some(value: T)

  /** One thread as listed by the platform at the start of a run. The
      creation time can be missing on the platform's side. */
  datatype Thread = Thread(
    id: int,
    parentId: int,
    pinned: bool,
    locked: bool,
    archived: bool,
    createdAt: Option<int>)

  /** What fetching the newest message of a thread produced. */
  datatype FetchOutcome =
    | Found(ts: int)   // the newest message, with its creation time
    | NoMessages       // the history iterator yielded nothing
    | Forbidden        // no permission to read the history
    | Failed           // any other error

  /** The activity stamp of a thread: the newest message when it could be
      fetched, otherwise the fallback (creation time, or the clock). */
  datatype LastActivity = Known(ts: int) | Unknown(fallback: int)
  {
    function Stamp(): int {
      match this
      case Known(t) => t
      case Unknown(f) => f
    }
  }

  /** A thread paired with its resolved activity. */
  datatype Entry = Entry(thread: Thread, activity: LastActivity)
  {
    function Stamp(): int {
      activity.Stamp()
    }
  }

  /** The threads of a list of entries, in order. */
  function Threads(entries: seq<Entry>): (ts: seq<Thread>)
    ensures |ts| == |entries|
    ensures forall i :: 0 <= i < |entries| ==> ts[i] == entries[i].thread
  {
    seq(|entries|, i requires 0 <= i < |entries| => entries[i].thread)
  }
}

/** Order-preserving filtering of sequences. */
module Seqs {

  function Filter<T>(s: seq<T>, p: T -> bool): (r: seq<T>)
    ensures |r| <= |s|
    ensures forall x :: x in r ==> x in s && p(x)
    ensures multiset(r) <= multiset(s)
  {
    if |s| == 0 then []
    else
      var rest := Filter(s[1..], p);
      assert s == [s[0]] + s[1..];
      if p(s[0]) then [s[0]] + rest else rest
  }

  lemma {:induction false} FilterKeeps<T>(s: seq<T>, p: T -> bool, x: T)
    requires x in s && p(x)
    ensures x in Filter(s, p)
  {
    if s[0] != x {
      FilterKeeps(s[1..], p, x);
    }
  }
}
