/** Properties of a whole run, stated on the run specification that
    `ThreadArchiverBot.ProcessGuildThreads` is proved to follow. */
module RunProperties {
  import opened Snapshot
  import opened Activity
  import opened Eviction
  import opened Bookkeeping
  import opened Settings
  import opened Report
  import opened Archiver

  /** A finished run had both settings and a listing, and its outcome and
      tally are those of its two eviction phases. */
  lemma FinishedRunIsPhases(records: map<int, int>, s: GuildArchiveSettings, listing: Listing,
                            clock: Clock, oracle: Oracle)
    requires RunSpec(records, s, listing, clock, oracle).0.Finished?
    ensures s.inactivityDays.Some? && s.maxActiveThreads.Some? && !listing.ListFailed?
    ensures var r := RunSpec(records, s, listing, clock, oracle);
      (r.0, r.2) == Phases(ListedThreads(listing), s, s.maxActiveThreads.value, s.inactivityDays.value, clock, oracle)
  {
  }

  /** The capacity phase archives min(excess, #candidates) candidates, none
      when within the cap, and never a pinned or locked thread. */
  lemma CapacityPhasePicks(threads: seq<Thread>, s: GuildArchiveSettings, kill: int, now: int,
                           oracle: Oracle, t: Tally)
    ensures var picked := CapacityPhase(threads, s, kill, now, oracle, t).0;
      var n := |CapacityCandidates(threads, s.onlyArchiveMonitoredChannels, s.monitoringChannelIds)|;
      && |picked| == (if kill <= 0 then 0 else if kill < n then kill else n)
      && forall e :: e in picked ==> e.thread in threads && !e.thread.pinned && !e.thread.locked
  {
    if kill > 0 {
      var cc := CapacityCandidates(threads, s.onlyArchiveMonitoredChannels, s.monitoringChannelIds);
      var outcomes := Outcomes(oracle.capacityFetch, |cc|);
      ResolveAllPairs(cc, outcomes, now);
      CapacitySelectionSize(kill, ResolveAll(cc, outcomes, now));
      CapacityNeverPicksPinnedOrLocked(threads, s.onlyArchiveMonitoredChannels, s.monitoringChannelIds,
        kill, outcomes, now);
    }
  }

  /** The inactivity phase archives nothing when off, and otherwise only
      unpinned, unarchived, unlocked threads of monitored channels. */
  lemma InactivityPhasePicks(threads: seq<Thread>, s: GuildArchiveSettings, days: int, clock: Clock,
                             oracle: Oracle, t: Tally)
    ensures var picked := InactivityPhase(threads, s, days, clock, oracle, t).0;
      && (days <= 0 ==> picked == [])
      && forall e :: e in picked ==>
           && e.thread in threads && e.thread.parentId in s.monitoringChannelIds
           && !e.thread.pinned && !e.thread.archived && !e.thread.locked
  {
    if days > 0 {
      var ic := InactivityCandidates(threads, s.monitoringChannelIds);
      InactivityNeverPicksExempt(threads, s.monitoringChannelIds, days, clock.inactivityNow,
        Outcomes(oracle.inactivityFetch, |ic|), clock.inactivityFetchNow);
    }
  }

  /** Each phase keeps the tally well formed, never lowers the success or
      failure counter, and keeps the blurbs already recorded. */
  lemma CapacityPhaseTally(threads: seq<Thread>, s: GuildArchiveSettings, kill: int, now: int,
                           oracle: Oracle, t: Tally)
    requires TallyValid(t)
    ensures var r := CapacityPhase(threads, s, kill, now, oracle, t).1;
      && TallyValid(r)
      && r.succeedCount >= t.succeedCount && r.failCount >= t.failCount
      && |r.details| >= |t.details| && r.details[..|t.details|] == t.details
  {
    if kill > 0 {
      var cc := CapacityCandidates(threads, s.onlyArchiveMonitoredChannels, s.monitoringChannelIds);
      var outcomes := Outcomes(oracle.capacityFetch, |cc|);
      var picked := CapacityPhase(threads, s, kill, now, oracle, t).0;
      FetchAllCounts(t, outcomes);
      ArchiveAllCounts(FetchAll(t, outcomes), picked, Outcomes(oracle.capacityEdit, |picked|));
    }
  }

  lemma InactivityPhaseTally(threads: seq<Thread>, s: GuildArchiveSettings, days: int, clock: Clock,
                             oracle: Oracle, t: Tally)
    requires TallyValid(t)
    ensures var r := InactivityPhase(threads, s, days, clock, oracle, t).1;
      && TallyValid(r)
      && r.succeedCount >= t.succeedCount && r.failCount >= t.failCount
      && |r.details| >= |t.details| && r.details[..|t.details|] == t.details
  {
    if days > 0 {
      var ic := InactivityCandidates(threads, s.monitoringChannelIds);
      var outcomes := Outcomes(oracle.inactivityFetch, |ic|);
      var picked := InactivityPhase(threads, s, days, clock, oracle, t).0;
      FetchAllCounts(t, outcomes);
      ArchiveAllCounts(FetchAll(t, outcomes), picked, Outcomes(oracle.inactivityEdit, |picked|));
    }
  }

  /** Neither phase of a finished run archives a pinned or locked thread,
      and the inactivity phase archives only unarchived threads of a
      monitored channel. */
  lemma RunNeverArchivesExempt(records: map<int, int>, s: GuildArchiveSettings, listing: Listing,
                               clock: Clock, oracle: Oracle)
    ensures var out := RunSpec(records, s, listing, clock, oracle).0;
      out.Finished? ==>
        && (forall e :: e in out.capacityPicked ==>
              e.thread in ListedThreads(listing) && !e.thread.pinned && !e.thread.locked)
        && (forall e :: e in out.inactivityPicked ==>
              && e.thread in ListedThreads(listing) && e.thread.parentId in s.monitoringChannelIds
              && !e.thread.pinned && !e.thread.archived && !e.thread.locked)
  {
    if RunSpec(records, s, listing, clock, oracle).0.Finished? {
      FinishedRunIsPhases(records, s, listing, clock, oracle);
      var threads := ListedThreads(listing);
      var kill := KillCount(threads, s.maxActiveThreads.value);
      var capacity := CapacityPhase(threads, s, kill, clock.capacityFetchNow, oracle, FreshTally());
      CapacityPhasePicks(threads, s, kill, clock.capacityFetchNow, oracle, FreshTally());
      InactivityPhasePicks(threads, s, s.inactivityDays.value, clock, oracle, capacity.1);
    }
  }

  /** A finished run computes the excess over the cap from every listed
      thread, and the capacity phase archives min(excess, #candidates)
      candidates, none when the guild is within the cap; the inactivity
      phase archives nothing when it is off. */
  lemma RunCapacityCount(records: map<int, int>, s: GuildArchiveSettings, listing: Listing,
                         clock: Clock, oracle: Oracle)
    ensures var out := RunSpec(records, s, listing, clock, oracle).0;
      out.Finished? ==>
        var threads := ListedThreads(listing);
        var n := |CapacityCandidates(threads, s.onlyArchiveMonitoredChannels, s.monitoringChannelIds)|;
        && out.killCount == |threads| - s.maxActiveThreads.value
        && |out.capacityPicked| == (if out.killCount <= 0 then 0 else if out.killCount < n then out.killCount else n)
        && (s.inactivityDays.value <= 0 ==> out.inactivityPicked == [])
  {
    if RunSpec(records, s, listing, clock, oracle).0.Finished? {
      FinishedRunIsPhases(records, s, listing, clock, oracle);
      var threads := ListedThreads(listing);
      var kill := KillCount(threads, s.maxActiveThreads.value);
      var capacity := CapacityPhase(threads, s, kill, clock.capacityFetchNow, oracle, FreshTally());
      CapacityPhasePicks(threads, s, kill, clock.capacityFetchNow, oracle, FreshTally());
      InactivityPhasePicks(threads, s, s.inactivityDays.value, clock, oracle, capacity.1);
    }
  }

  /** Every run leaves a well-formed detail map of at most ten blurbs, and
      a finished run reports the success counter as its archived count and
      is blue exactly when nothing was archived and nothing was over the
      cap. */
  lemma RunTallyBounds(records: map<int, int>, s: GuildArchiveSettings, listing: Listing,
                       clock: Clock, oracle: Oracle)
    ensures var r := RunSpec(records, s, listing, clock, oracle);
      && TallyValid(r.2) && |r.2.details| <= DetailCap
      && (r.0.Finished? ==> r.0.archivedThisRun == r.2.succeedCount)
      && (r.0.Finished? ==> (r.0.colour == Blue <==> r.2.succeedCount == 0 && r.0.killCount <= 0))
  {
    if RunSpec(records, s, listing, clock, oracle).0.Finished? {
      FinishedRunIsPhases(records, s, listing, clock, oracle);
      var threads := ListedThreads(listing);
      var kill := KillCount(threads, s.maxActiveThreads.value);
      var capacity := CapacityPhase(threads, s, kill, clock.capacityFetchNow, oracle, FreshTally());
      CapacityPhaseTally(threads, s, kill, clock.capacityFetchNow, oracle, FreshTally());
      InactivityPhaseTally(threads, s, s.inactivityDays.value, clock, oracle, capacity.1);
    }
  }
}
