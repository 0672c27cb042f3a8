/** The per-run counters and the capped detail map kept by
    `_get_last_message` and `_archive_thread` (main.py:666-759). */
module Bookkeeping {
  import opened Snapshot
  import Activity

  /** At most this many detail blurbs are kept for the report. */
  const DetailCap := 10

  /** The key of a detail blurb: the success or failure counter value it
      was written under ("[T<n>]" or "[E<n>]"). */
  datatype DetailKey = SucceededKey(n: nat) | FailedKey(n: nat)

  /** One detail blurb; its text is not modelled, only what it is about. */
  datatype Detail = Detail(key: DetailKey, threadId: int, activity: LastActivity)

  datatype Tally = Tally(
    succeedCount: nat,
    failCount: nat,
    messageSucceedCount: nat,
    notFoundErrorCount: nat,
    details: seq<Detail>)

  /** The state at the start of a run. */
  function FreshTally(): Tally {
    Tally(0, 0, 0, 0, [])
  }

  /** The detail map is an insertion-ordered dictionary: keys are distinct,
      each written under a counter value already reached, at most ten. */
  ghost predicate TallyValid(t: Tally) {
    && |t.details| <= DetailCap
    && (forall i, j :: 0 <= i < j < |t.details| ==> t.details[i].key != t.details[j].key)
    && (forall i :: 0 <= i < |t.details| ==>
          match t.details[i].key
          case SucceededKey(n) => 1 <= n <= t.succeedCount
          case FailedKey(n) => 1 <= n <= t.failCount)
  }

  /** Stores a blurb only while fewer than ten are kept. */
  function Note(details: seq<Detail>, d: Detail): seq<Detail> {
    if |details| < DetailCap then details + [d] else details
  }

  /** One fetch: a found message counts a success, anything else a failure. */
  function FetchStep(t: Tally, outcome: FetchOutcome): Tally {
    if outcome.Found? then t.(messageSucceedCount := t.messageSucceedCount + 1)
    else t.(notFoundErrorCount := t.notFoundErrorCount + 1)
  }

  function FetchAll(t: Tally, outcomes: seq<FetchOutcome>): Tally
    decreases |outcomes|
  {
    if |outcomes| == 0 then t else FetchAll(FetchStep(t, outcomes[0]), outcomes[1..])
  }

  /** The fetch counters grow by the number of found messages and the
      number of fallbacks; nothing else changes. */
  lemma {:induction false} FetchAllCounts(t: Tally, outcomes: seq<FetchOutcome>)
    ensures FetchAll(t, outcomes) == t.(
      messageSucceedCount := t.messageSucceedCount + Activity.CountFound(outcomes),
      notFoundErrorCount := t.notFoundErrorCount + |outcomes| - Activity.CountFound(outcomes))
    decreases |outcomes|
  {
    if outcomes != [] {
      FetchAllCounts(FetchStep(t, outcomes[0]), outcomes[1..]);
    }
  }

  /** The archive call is issued only for a thread not already archived. */
  predicate EditIssued(e: Entry) {
    !e.thread.archived
  }

  /** The archive succeeds when the thread was already archived or the
      edit went through. */
  predicate Archived(e: Entry, editOk: bool) {
    e.thread.archived || editOk
  }

  /** One `_archive_thread`. On success the success counter goes up. With an
      Unknown activity the success blurb then reads a variable that was
      never bound, and the resulting error also counts a failure and
      writes a failure blurb. */
  function ArchiveStep(t: Tally, e: Entry, editOk: bool): Tally {
    if !Archived(e, editOk) then
      var f := t.failCount + 1;
      t.(failCount := f, details := Note(t.details, Detail(FailedKey(f), e.thread.id, e.activity)))
    else if e.activity.Known? then
      var s := t.succeedCount + 1;
      t.(succeedCount := s, details := Note(t.details, Detail(SucceededKey(s), e.thread.id, e.activity)))
    else
      var s, f := t.succeedCount + 1, t.failCount + 1;
      t.(succeedCount := s, failCount := f, details := Note(t.details, Detail(FailedKey(f), e.thread.id, e.activity)))
  }

  function ArchiveAll(t: Tally, entries: seq<Entry>, oks: seq<bool>): Tally
    requires |oks| == |entries|
    decreases |entries|
  {
    if |entries| == 0 then t else ArchiveAll(ArchiveStep(t, entries[0], oks[0]), entries[1..], oks[1..])
  }

  /** Number of archives that went through. */
  function Successes(entries: seq<Entry>, oks: seq<bool>): nat
    requires |oks| == |entries|
  {
    if |entries| == 0 then 0
    else (if Archived(entries[0], oks[0]) then 1 else 0) + Successes(entries[1..], oks[1..])
  }

  /** Number of counted failures: failed archives plus successful archives
      of threads whose activity was unknown. */
  function Failures(entries: seq<Entry>, oks: seq<bool>): nat
    requires |oks| == |entries|
  {
    if |entries| == 0 then 0
    else (if !Archived(entries[0], oks[0]) || entries[0].activity.Unknown? then 1 else 0)
         + Failures(entries[1..], oks[1..])
  }

  /** One archive keeps the detail map well formed: the new key is fresh. */
  lemma ArchiveStepValid(t: Tally, e: Entry, editOk: bool)
    requires TallyValid(t)
    ensures TallyValid(ArchiveStep(t, e, editOk))
  {
    var r := ArchiveStep(t, e, editOk);
    if |t.details| < DetailCap {
      var d := r.details[|t.details|];
      forall i | 0 <= i < |t.details| ensures t.details[i].key != d.key {
        match t.details[i].key
        case SucceededKey(n) =>
        case FailedKey(n) =>
      }
    }
  }

  /** An already-archived thread is not edited again and always counts as a
      success, whatever the edit oracle says. */
  lemma ArchivedThreadIsIdempotent(t: Tally, e: Entry, editOk: bool)
    requires e.thread.archived
    ensures !EditIssued(e)
    ensures ArchiveStep(t, e, editOk) == ArchiveStep(t, e, !editOk)
    ensures ArchiveStep(t, e, editOk).succeedCount == t.succeedCount + 1
  {
  }

  /** Over a batch, the success counter grows by the archives that went
      through, the failure counter by the failed ones plus the successes
      with an unknown activity, the detail map by one blurb per thread up
      to ten, and the map stays well formed. */
  lemma {:induction false} ArchiveAllCounts(t: Tally, entries: seq<Entry>, oks: seq<bool>)
    requires |oks| == |entries|
    requires TallyValid(t)
    ensures var r := ArchiveAll(t, entries, oks);
      && r.succeedCount == t.succeedCount + Successes(entries, oks)
      && r.failCount == t.failCount + Failures(entries, oks)
      && r.messageSucceedCount == t.messageSucceedCount
      && r.notFoundErrorCount == t.notFoundErrorCount
      && |r.details| == (if |t.details| + |entries| < DetailCap then |t.details| + |entries| else DetailCap)
      && r.details[..|t.details|] == t.details
      && TallyValid(r)
    decreases |entries|
  {
    if entries != [] {
      ArchiveStepValid(t, entries[0], oks[0]);
      var next := ArchiveStep(t, entries[0], oks[0]);
      ArchiveAllCounts(next, entries[1..], oks[1..]);
      var r := ArchiveAll(t, entries, oks);
      assert r.details[..|next.details|] == next.details;
      assert next.details[..|t.details|] == t.details;
    }
  }
}
