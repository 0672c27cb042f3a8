/** One audit run of `process_guild_threads` (main.py:367-607) over a guild,
    with the bot's mutable state: the bump records and the per-run
    counters and detail map. Platform calls are oracle inputs, indexed by
    the position of the call in its phase; clock readings are inputs. */
module Archiver {
  import opened Snapshot
  import opened Activity
  import opened Eviction
  import opened Keepalive
  import opened Bookkeeping
  import opened Settings
  import opened Report

  /** The result of listing the guild's active threads. A permission error
      is logged and the run goes on with no threads; any other error ends
      the run. */
  datatype Listing = Listed(threads: seq<Thread>) | ListForbidden | ListFailed

  /** The clock readings of one run. */
  datatype Clock = Clock(keepaliveNow: int, capacityFetchNow: int, inactivityFetchNow: int, inactivityNow: int)

  /** The outcome of each platform call, by phase and position. */
  datatype Oracle = Oracle(
    keepaliveOk: int -> bool,
    capacityFetch: int -> FetchOutcome,
    capacityEdit: int -> bool,
    inactivityFetch: int -> FetchOutcome,
    inactivityEdit: int -> bool)

  function Outcomes<T>(f: int -> T, n: nat): (r: seq<T>)
    ensures |r| == n
    ensures forall i :: 0 <= i < n ==> r[i] == f(i)
  {
    seq(n, i => f(i))
  }

  /** Where a missing setting makes the run raise a type error. */
  datatype CrashPoint = InactivityDaysMissing | MaxActiveThreadsMissing

  datatype RunOutcome =
    | Crashed(at: CrashPoint)
    | ListingFailed
    | Finished(killCount: int, capacityPicked: seq<Entry>, inactivityPicked: seq<Entry>,
               archivedThisRun: int, colour: Colour)

  function ListedThreads(listing: Listing): seq<Thread> {
    if listing.Listed? then listing.threads else []
  }

  /** The capacity phase from a given tally: the entries it archives and
      the tally after its fetches and archives. */
  function CapacityPhase(threads: seq<Thread>, s: GuildArchiveSettings, kill: int, now: int,
                         oracle: Oracle, t: Tally): (seq<Entry>, Tally)
  {
    if kill <= 0 then ([], t)
    else
      var candidates := CapacityCandidates(threads, s.onlyArchiveMonitoredChannels, s.monitoringChannelIds);
      var outcomes := Outcomes(oracle.capacityFetch, |candidates|);
      var picked := CapacitySelection(kill, ResolveAll(candidates, outcomes, now));
      (picked, ArchiveAll(FetchAll(t, outcomes), picked, Outcomes(oracle.capacityEdit, |picked|)))
  }

  /** The inactivity phase from a given tally; off unless the days are
      positive. */
  function InactivityPhase(threads: seq<Thread>, s: GuildArchiveSettings, days: int, clock: Clock,
                           oracle: Oracle, t: Tally): (seq<Entry>, Tally)
  {
    if days <= 0 then ([], t)
    else
      var candidates := InactivityCandidates(threads, s.monitoringChannelIds);
      var outcomes := Outcomes(oracle.inactivityFetch, |candidates|);
      var picked := InactivitySelection(days, clock.inactivityNow, ResolveAll(candidates, outcomes, clock.inactivityFetchNow));
      (picked, ArchiveAll(FetchAll(t, outcomes), picked, Outcomes(oracle.inactivityEdit, |picked|)))
  }

  /** The whole run: its outcome, the bump records and the tally it leaves. */
  function RunSpec(records: map<int, int>, s: GuildArchiveSettings, listing: Listing, clock: Clock,
                   oracle: Oracle): (RunOutcome, map<int, int>, Tally)
  {
    if s.inactivityDays.None? then (Crashed(InactivityDaysMissing), records, FreshTally())
    else if listing.ListFailed? then (ListingFailed, records, FreshTally())
    else
      var threads := ListedThreads(listing);
      var recs := Keepalive.Run(records, threads, Outcomes(oracle.keepaliveOk, |threads|), clock.keepaliveNow);
      if s.maxActiveThreads.None? then (Crashed(MaxActiveThreadsMissing), recs, FreshTally())
      else
        var (outcome, t) := Phases(threads, s, s.maxActiveThreads.value, s.inactivityDays.value, clock, oracle);
        (outcome, recs, t)
  }

  /** Capacity control, then the inactivity sweep, from a fresh tally, and
      the report colour. */
  function Phases(threads: seq<Thread>, s: GuildArchiveSettings, maxActiveThreads: int, days: int,
                  clock: Clock, oracle: Oracle): (RunOutcome, Tally)
  {
    var kill := KillCount(threads, maxActiveThreads);
    var capacity := CapacityPhase(threads, s, kill, clock.capacityFetchNow, oracle, FreshTally());
    var inactivity := InactivityPhase(threads, s, days, clock, oracle, capacity.1);
    var t := inactivity.1;
    (Finished(kill, capacity.0, inactivity.0, t.succeedCount,
              ReportColour(t.failCount, t.notFoundErrorCount, t.succeedCount, kill)), t)
  }

  class ThreadArchiverBot {
    var bumpRecords: map<int, int>
    var succeedCount: nat
    var failCount: nat
    var messageSucceedCount: nat
    var notFoundErrorCount: nat
    var details: seq<Detail>

    function Counters(): Tally
      reads this
    {
      Tally(succeedCount, failCount, messageSucceedCount, notFoundErrorCount, details)
    }

    ghost predicate Valid()
      reads this
    {
      TallyValid(Counters())
    }

    /** The bump records are those loaded at start-up. */
    constructor (records: map<int, int>)
      ensures Valid() && bumpRecords == records && Counters() == FreshTally()
    {
      bumpRecords := records;
      succeedCount, failCount := 0, 0;
      messageSucceedCount, notFoundErrorCount := 0, 0;
      details := [];
    }

    method ResetRun()
      modifies this
      ensures Valid() && Counters() == FreshTally() && bumpRecords == old(bumpRecords)
    {
      succeedCount, failCount := 0, 0;
      messageSucceedCount, notFoundErrorCount := 0, 0;
      details := [];
    }

    /** One keepalive iteration: unarchive an archived pinned thread, skip
        one bumped within the self-trust window, otherwise bump it by a
        message (or by an edit when locked) and, if that went through,
        record the time. */
    method KeepaliveOne(t: Thread, ok: bool, now: int) returns (action: KeepaliveAction)
      modifies this`bumpRecords
      ensures action == Decide(old(bumpRecords), t, now)
      ensures bumpRecords == Step(old(bumpRecords), t, ok, now)
    {
      if !t.pinned {
        action := NotPinned;
      } else if t.archived {
        action := Unarchive;
      } else if t.id in bumpRecords && now - bumpRecords[t.id] < SelfTrustSeconds {
        action := TrustedFresh;
      } else {
        action := if !t.locked then BumpByMessage else BumpByEdit;
        if ok {
          bumpRecords := bumpRecords[t.id := now];
        }
      }
    }

    /** The keepalive loop over every listed thread, one at a time. */
    method KeepalivePinned(threads: seq<Thread>, oks: seq<bool>, now: int) returns (actions: seq<KeepaliveAction>)
      requires |oks| == |threads|
      modifies this`bumpRecords
      ensures bumpRecords == Keepalive.Run(old(bumpRecords), threads, oks, now)
      ensures actions == Trace(old(bumpRecords), threads, oks, now)
    {
      ghost var start := bumpRecords;
      actions := [];
      var i := 0;
      while i < |threads|
        invariant 0 <= i <= |threads|
        invariant Keepalive.Run(bumpRecords, threads[i..], oks[i..], now) == Keepalive.Run(start, threads, oks, now)
        invariant actions + Trace(bumpRecords, threads[i..], oks[i..], now) == Trace(start, threads, oks, now)
      {
        LoopStep(start, bumpRecords, threads, oks, now, i, actions);
        var action := KeepaliveOne(threads[i], oks[i], now);
        actions := actions + [action];
        i := i + 1;
      }
    }

    /** The history fetches of a list of threads, zipped in input order. */
    method GetLastMessages(threads: seq<Thread>, outcomes: seq<FetchOutcome>, now: int) returns (entries: seq<Entry>)
      requires |outcomes| == |threads|
      modifies this`messageSucceedCount, this`notFoundErrorCount
      ensures entries == ResolveAll(threads, outcomes, now)
      ensures Counters() == FetchAll(old(Counters()), outcomes)
    {
      entries := [];
      var i := 0;
      while i < |threads|
        invariant 0 <= i <= |threads|
        invariant |entries| == i
        invariant forall k :: 0 <= k < i ==> entries[k] == Entry(threads[k], Resolve(threads[k], outcomes[k], now))
        invariant FetchAll(Counters(), outcomes[i..]) == FetchAll(old(Counters()), outcomes)
      {
        assert outcomes[i..][0] == outcomes[i] && outcomes[i..][1..] == outcomes[i + 1..];
        var activity;
        match outcomes[i] {
          case Found(ts) =>
            messageSucceedCount := messageSucceedCount + 1;
            activity := Known(ts);
          case NoMessages =>
            notFoundErrorCount := notFoundErrorCount + 1;
            activity := Unknown(CreationOr(threads[i], now));
          case Forbidden =>
            notFoundErrorCount := notFoundErrorCount + 1;
            activity := Unknown(CreationOr(threads[i], now));
          case Failed =>
            notFoundErrorCount := notFoundErrorCount + 1;
            activity := Unknown(CreationOr(threads[i], now));
        }
        entries := entries + [Entry(threads[i], activity)];
        i := i + 1;
      }
      assert outcomes[i..] == [];
      ResolveAllPairs(threads, outcomes, now);
    }

    /** `_archive_thread`: `edited` says whether the archive edit was issued. */
    method ArchiveThread(e: Entry, editOk: bool) returns (edited: bool)
      requires Valid()
      modifies this`succeedCount, this`failCount, this`details
      ensures Valid()
      ensures Counters() == ArchiveStep(old(Counters()), e, editOk)
      ensures edited == EditIssued(e)
    {
      ArchiveStepValid(Counters(), e, editOk);
      edited := false;
      var actionTaken := false;
      var raised := false;
      if !e.thread.archived {
        edited := true;
        if editOk {
          actionTaken := true;
        } else {
          raised := true;
        }
      }
      if !raised && (actionTaken || e.thread.archived) {
        succeedCount := succeedCount + 1;
        if e.activity.Unknown? {
          // the success blurb reads a name bound only for Known activity
          raised := true;
        } else if |details| < DetailCap {
          details := details + [Detail(SucceededKey(succeedCount), e.thread.id, e.activity)];
        }
      }
      if raised {
        failCount := failCount + 1;
        if |details| < DetailCap {
          details := details + [Detail(FailedKey(failCount), e.thread.id, e.activity)];
        }
      }
    }

    /** The archive fan-out, in input order. */
    method ArchiveThreads(entries: seq<Entry>, oks: seq<bool>)
      requires Valid() && |oks| == |entries|
      modifies this`succeedCount, this`failCount, this`details
      ensures Valid()
      ensures Counters() == ArchiveAll(old(Counters()), entries, oks)
    {
      var i := 0;
      while i < |entries|
        invariant 0 <= i <= |entries|
        invariant Valid()
        invariant ArchiveAll(Counters(), entries[i..], oks[i..]) == ArchiveAll(old(Counters()), entries, oks)
      {
        assert entries[i..][0] == entries[i] && entries[i..][1..] == entries[i + 1..];
        assert oks[i..][0] == oks[i] && oks[i..][1..] == oks[i + 1..];
        var _ := ArchiveThread(entries[i], oks[i]);
        i := i + 1;
      }
      assert entries[i..] == [];
    }

    /** Step 3 of the run: server-wide capacity control. `archived` is the
        growth of the success counter. */
    method CapacityStage(threads: seq<Thread>, s: GuildArchiveSettings, kill: int, now: int, oracle: Oracle)
      returns (picked: seq<Entry>, archived: int)
      requires Valid()
      modifies this`succeedCount, this`failCount, this`details, this`messageSucceedCount, this`notFoundErrorCount
      ensures Valid()
      ensures (picked, Counters()) == CapacityPhase(threads, s, kill, now, oracle, old(Counters()))
      ensures archived == succeedCount - old(succeedCount)
    {
      picked, archived := [], 0;
      if kill > 0 {
        var candidates := CapacityCandidates(threads, s.onlyArchiveMonitoredChannels, s.monitoringChannelIds);
        if candidates != [] {
          var resolved := GetLastMessages(candidates, Outcomes(oracle.capacityFetch, |candidates|), now);
          picked := CapacitySelection(kill, resolved);
          var before := succeedCount;
          ArchiveThreads(picked, Outcomes(oracle.capacityEdit, |picked|));
          archived := succeedCount - before;
        }
      }
    }

    /** Step 4 of the run: archiving inactive threads of the monitored
        channels. */
    method InactivityStage(threads: seq<Thread>, s: GuildArchiveSettings, days: int, clock: Clock, oracle: Oracle)
      returns (picked: seq<Entry>, archived: int)
      requires Valid()
      modifies this`succeedCount, this`failCount, this`details, this`messageSucceedCount, this`notFoundErrorCount
      ensures Valid()
      ensures (picked, Counters()) == InactivityPhase(threads, s, days, clock, oracle, old(Counters()))
      ensures archived == succeedCount - old(succeedCount)
    {
      picked, archived := [], 0;
      if days > 0 {
        var candidates := InactivityCandidates(threads, s.monitoringChannelIds);
        if candidates != [] {
          var resolved := GetLastMessages(candidates, Outcomes(oracle.inactivityFetch, |candidates|), clock.inactivityFetchNow);
          picked := InactivitySelection(days, clock.inactivityNow, resolved);
          if picked != [] {
            var before := succeedCount;
            ArchiveThreads(picked, Outcomes(oracle.inactivityEdit, |picked|));
            archived := succeedCount - before;
          }
        }
      }
    }

    /** One run over a guild, phase by phase. */
    method ProcessGuildThreads(s: GuildArchiveSettings, listing: Listing, clock: Clock, oracle: Oracle)
      returns (outcome: RunOutcome)
      modifies this
      ensures Valid()
      ensures (outcome, bumpRecords, Counters()) == RunSpec(old(bumpRecords), s, listing, clock, oracle)
    {
      ResetRun();
      if s.inactivityDays.None? {
        return Crashed(InactivityDaysMissing);
      }
      var threads: seq<Thread>;
      match listing {
        case Listed(ts) => threads := ts;
        case ListForbidden => threads := [];
        case ListFailed => return ListingFailed;
      }

      var _ := KeepalivePinned(threads, Outcomes(oracle.keepaliveOk, |threads|), clock.keepaliveNow);
      if s.maxActiveThreads.None? {
        return Crashed(MaxActiveThreadsMissing);
      }

      outcome := AuditPhases(threads, s, s.maxActiveThreads.value, s.inactivityDays.value, clock, oracle);
    }

    /** Steps 3 to 5 of a run, from freshly reset counters. */
    method AuditPhases(threads: seq<Thread>, s: GuildArchiveSettings, maxActiveThreads: int, days: int,
                       clock: Clock, oracle: Oracle)
      returns (outcome: RunOutcome)
      requires Valid() && Counters() == FreshTally()
      modifies this`succeedCount, this`failCount, this`details, this`messageSucceedCount, this`notFoundErrorCount
      ensures Valid()
      ensures (outcome, Counters()) == Phases(threads, s, maxActiveThreads, days, clock, oracle)
    {
      var kill := KillCount(threads, maxActiveThreads);
      var capPicked, capArchived := CapacityStage(threads, s, kill, clock.capacityFetchNow, oracle);
      ghost var capacity := CapacityPhase(threads, s, kill, clock.capacityFetchNow, oracle, FreshTally());
      assert capPicked == capacity.0 && Counters() == capacity.1;
      var inPicked, inArchived := InactivityStage(threads, s, days, clock, oracle);
      ghost var inactivity := InactivityPhase(threads, s, days, clock, oracle, capacity.1);
      assert inPicked == inactivity.0 && Counters() == inactivity.1;
      var archivedThisRun := capArchived + inArchived;
      var colour := ReportColour(failCount, notFoundErrorCount, archivedThisRun, kill);
      outcome := Finished(kill, capPicked, inPicked, archivedThisRun, colour);
    }
  }
}
