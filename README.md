# Thread archiver policy model

A Dafny model of the decision logic inside the archive bot's
`ThreadArchiverBot.process_guild_threads` (main.py) and its helpers, with
proofs of what that logic guarantees. The bot periodically audits a guild's
active forum threads and does five things:

- It keeps pinned threads alive. A pinned thread is bumped only when its
  last successful bump is 48 hours old or more, or was never recorded.
  The bot remembers the times of successful bumps in a `bump_records` map.
  A bump whose call raised leaves no record and is retried on the next run.
- It enforces a server-wide cap on active threads. When the guild is over
  `max_active_threads`, the least recently active non-pinned, unlocked
  threads are archived.
- It archives threads that have been inactive for `inactivity_days` days,
  among the unpinned, unarchived, unlocked threads of the monitored channels.
- It counts successes and failures and keeps at most ten detail blurbs for
  the report.
- It packs those blurbs into embed fields of at most 1000 characters,
  unless one blurb alone is longer, and colours the report.

Beside the audit, the model covers:

- the `on_message` rule that deletes messages in pinned threads from
  non-exempt authors;
- the `set-archive-rules` update;
- the settings record with its `from_dict` / `to_dict` shape.

Discord calls are inputs to the model:

- Listing the guild's threads gives a `Listing`.
- Each history fetch gives a `FetchOutcome`: `Found(ts)`, `NoMessages`,
  `Forbidden` or `Failed`.
- Each edit, send or delete gives a success flag.
- In `Archiver.RunSpec` all of these are functions of the call's position in
  its phase (the `Oracle` datatype).

Clock readings are parameters. Timestamps are integer seconds: the
self-trust window is 172800 seconds and a day is 86400.

Layout:

| file | module | what it holds |
|---|---|---|
| snapshot.dfy | `Snapshot`, `Seqs` | threads, fetch outcomes, resolved activity, an order-keeping filter |
| activity.dfy | `Activity` | last-activity resolution with the creation-time fallback |
| ordering.dfy | `StableSort` | the stable ascending sort by activity and its uniqueness |
| eviction.dfy | `Eviction` | capacity and inactivity candidates and selections |
| keepalive.dfy | `Keepalive` | the pinned keepalive loop as a fold over the listing |
| bookkeeping.dfy | `Bookkeeping` | fetch and archive counters and the capped detail map |
| settings.dfy | `Settings` | guild settings, dictionary round trip, `set-archive-rules` |
| moderation.dfy | `Moderation` | the pinned-thread message deletion rule |
| report.dfy | `Report` | report colour and greedy embed-field packing |
| archiver.dfy | `Archiver` | the bot's mutable state as a class, whose methods run a whole audit |
| run_properties.dfy | `RunProperties` | guarantees of a whole run |

The class `Archiver.ThreadArchiverBot` holds the fields the source mutates:

- the bump records;
- the four counters;
- the detail map, as an insertion-ordered sequence.

Its methods are loops over those fields. Each is proved equal to a
specification function: `Keepalive.Run`, `Activity.ResolveAll`,
`Bookkeeping.FetchAll`, `Bookkeeping.ArchiveAll` and `Archiver.RunSpec`. The
lemmas are proved about those functions.

The code does not do some things a reader might expect, and the model
follows the code:

- The monitored-channel list is an inclusion list, used by the inactivity
  phase only. There is no blacklist.
- The capacity sort has no thread-id tie-break. Equal stamps keep snapshot
  order, because Python's sort is stable.
- The inactivity phase does not skip threads that the capacity phase just
  archived. It filters on the snapshot's `archived` flag only, so one thread
  can be picked twice (`Eviction.BothPhasesCanPickOneThread`).
- Neither the thread owner nor administrators are exempt from pinned-thread
  moderation. Only the configured user ids and role ids are.
- Archiving a thread whose last activity is unknown counts one success and
  then one failure. Building the success blurb reads `days_diff_str`, which
  is bound only in the known-activity branch (main.py:721, 744). The
  resulting `NameError` is caught by the failure handler. This holds even
  for a thread that was already archived.
- `only_archive_monitored_channels` is always stored as false (main.py:62).
  The monitored-only capacity branch is therefore dead, though it is still
  modelled.
- `max_active_posts` is stored and updated but never enforced.
  `set-archive-rules` accepts `max_active_threads` and ignores it.
- There is no persisted message cursor and no reconciliation sweep.
- A missing `inactivity_days` or `max_active_threads` (`None` from
  `from_dict`) makes the run raise. For `inactivity_days` the raise comes
  from the comparison with 0 when the summary is built (main.py:386). For
  `max_active_threads` it comes from the subtraction that computes the
  excess (main.py:477). Both are modelled as a `Crashed` outcome.

## Model

| member | source | states |
|---|---|---|
| Snapshot.Threads | main.py:113-120 | a definition: the threads of a list of resolved entries, one per entry, in order |
| Activity.Resolve | main.py:666-694 | the activity is Known exactly when a message was found, and its stamp is then that message's time; an empty history, a permission error or any other error gives the thread's creation time (or the clock when that is missing) |
| Activity.ResolveAllPairs | main.py:649-664 | resolution returns exactly one entry per input thread, in input order, the i-th pairing thread i with its own fetch outcome; no thread is dropped |
| Activity.ResolveAllKeepsThreads | main.py:659-663 | the threads of the resolved list are exactly the input threads |
| Activity.CountFound | main.py:669-672 | a definition: the number of fetches that found a message, which never exceeds the number of fetches |
| Activity.KnownCountMatches | main.py:669-694 | the number of entries with Known activity equals the number of fetches that found a message |
| StableSort.InsertPermutes | main.py:515 | inserting adds exactly the new entry and keeps every other one |
| StableSort.InsertSorted | main.py:515 | inserting into a sorted list keeps it sorted |
| StableSort.SortByActivity | main.py:515 | the sort is a permutation of its input, ascending by activity stamp |
| StableSort.SortIsStable | main.py:515 | the sort is stable: for every stamp, the entries carrying it keep their input order |
| StableSort.SortKeepsStampOrder | main.py:515 | the entries of the sorted list carrying a given stamp are those of the input, in input order |
| StableSort.StableSortsAgree | main.py:515 | two sorted lists with the same per-stamp subsequences are equal |
| StableSort.StableSortIsSortByActivity | main.py:515 | any stable ascending sort of the candidates is this sort, so the selection does not depend on the sorting algorithm |
| Eviction.PinnedIds | main.py:422-432 | the pinned-id set holds exactly the ids of the pinned listed threads |
| Eviction.CapacitySelectionSize | main.py:477-517 | the capacity phase selects min(kill_count, number of candidates) entries, none when kill_count <= 0, all taken from the candidates |
| Eviction.CapacitySelectsOldest | main.py:509-517 | the selection and the unselected rest together are exactly the candidates, and no selected entry is newer than any unselected one |
| Eviction.CapacityTiesKeepOrder | main.py:515-517 | among entries with equal stamps, the selected ones are the first of them in snapshot order |
| Eviction.CapacityNeverPicksPinnedOrLocked | main.py:486-507 | every capacity pick is a listed thread that is neither pinned nor locked |
| Eviction.InactivitySelectionIff | main.py:537-568 | an entry is selected for inactivity iff the phase is on (days > 0), it is a candidate, and its stamp is strictly earlier than now minus the configured days |
| Eviction.InactivityNeverPicksExempt | main.py:540-548 | every inactivity pick is a listed thread in a monitored channel that is not pinned, not archived and not locked |
| Eviction.BothPhasesCanPickOneThread | main.py:542-548 | a thread archived by the capacity phase can be selected again by the inactivity phase of the same run |
| Keepalive.Trace | main.py:428-470 | a definition: the loop takes exactly one action per listed thread |
| Keepalive.RunOnlyRefreshesDue | main.py:428-467 | the loop never removes a record; a record that changes is set to now, and only for a thread that was due (no record, or 48 hours or more old) and was bumped successfully |
| Keepalive.RunRefreshesEveryDue | main.py:442-464 | every pinned, unarchived, due thread whose bump went through ends with its record at now |
| Keepalive.RunKeepsNow | main.py:442-445 | a record already at now stays at now for the rest of the loop |
| Keepalive.RunLeavesOthers | main.py:428-430 | an id with no pinned thread in the listing keeps its record, or stays absent |
| Keepalive.TraceDecisions | main.py:428-460 | a non-pinned thread is skipped; an archived pinned thread is only unarchived; a bump only happens to a pinned, unarchived thread, by edit exactly when the thread is locked |
| Keepalive.TraceAtTurn | main.py:428-460 | the action on each thread is the decision taken on the records left by the threads before it |
| Keepalive.BumpIffDueAtTurn | main.py:428-460 | a thread is bumped, whether or not the call then succeeds, exactly when it is pinned, unarchived and due (no record, or one 48 hours or more old) on the records at its turn |
| Keepalive.BumpIffDue | main.py:428-460 | when the listed thread ids are distinct, a thread is bumped exactly when it is pinned, unarchived and due on the records the run started from |
| Bookkeeping.FetchAllCounts | main.py:666-694 | the fetches add the number of found messages to the success counter and the rest to the not-found counter, and change nothing else |
| Bookkeeping.ArchiveStepValid | main.py:734-757 | one archive attempt keeps the detail map within ten distinct blurbs, each keyed by a counter value already reached |
| Bookkeeping.ArchivedThreadIsIdempotent | main.py:734-739 | an already-archived thread is not edited again, the edit outcome is irrelevant, and it counts as a success |
| Bookkeeping.ArchiveAllCounts | main.py:696-757 | a batch adds its successes and failures to the counters, leaves the fetch counters alone, and appends blurbs up to the cap of ten while keeping the earlier ones |
| Settings.NewSettings | main.py:54-73 | the monitored-only flag is always false, and with no moderation section moderation is disabled with nobody exempt |
| Settings.FromDict | main.py:89-104 | reading a stored config keeps the guild id and name, clears the monitored-only flag, and takes the day and thread caps as stored (possibly missing) |
| Settings.DictRoundTrip | main.py:75-104 | reading back what to_dict wrote restores every policy field, and resets moderation to disabled with nobody exempt |
| Settings.FindByName | main.py:781-785 | the first registered config with the name, or none when no config has it |
| Settings.SetArchiveRulesEffect | main.py:774-798 | the update fails exactly when the name is unknown or its guild id is 0; otherwise only that entry's inactivity days and post cap change, a negative input keeps the old value, the thread cap never changes, the stored copy of that config takes the two new values and nothing else, and every other stored config is unchanged |
| Settings.Lookup | main.py:312-314 | the settings registered for a guild id, or none when the guild has none |
| Settings.LookupUnique | main.py:185 | on a registry keyed by guild id (ids distinct), the lookup returns a record exactly when that record is registered under the id |
| Moderation.ShouldDelete | main.py:296-330 | a message is deleted iff its author is not a bot, it is in a guild, in a pinned thread, the guild's moderation is enabled, the author's id is not allowed, and the author has no allowed role |
| Moderation.ExemptionDecides | main.py:319-328 | an exempt author's message is never deleted; a non-bot, non-exempt author's message in a pinned thread of a moderated guild always is |
| Report.ReportColour | main.py:605-607 | blue iff nothing was archived and the guild was not over its cap; otherwise orange iff some archive or fetch failed, and green when none did |
| Report.NameFields | main.py:620-628 | every field but the last is plain, and the last is a continuation exactly when it is not the first |
| Report.PackPart | main.py:617-625 | one iteration closes the open field only when the part would push it past 1000 characters and it is not empty, then adds the part to the open field, keeping the packing invariant |
| Report.PackFields | main.py:612-628 | the fields hold every part in order, none split or lost; no field is empty; a field exceeds 1000 characters only when it is one oversized part; a field is closed only when the next part would overflow it |
| Archiver.Outcomes | main.py:652-657 | a definition: one outcome per call, the i-th from the oracle at position i |
| Archiver.ThreadArchiverBot.constructor | main.py:123-149 | the bot starts with the loaded bump records and zero counters |
| Archiver.ThreadArchiverBot.ResetRun | main.py:374-381 | the counters and detail map are cleared and the bump records kept |
| Archiver.ThreadArchiverBot.KeepaliveOne | main.py:428-467 | one iteration takes the action Keepalive.Decide chooses from the current records and updates the records as Keepalive.Step says |
| Archiver.ThreadArchiverBot.KeepalivePinned | main.py:428-470 | the loop leaves the bump records as Keepalive.Run computes them and takes the actions Keepalive.Trace lists |
| Archiver.ThreadArchiverBot.GetLastMessages | main.py:649-694 | the loop returns the entries of Activity.ResolveAll and moves the fetch counters as Bookkeeping.FetchAll says |
| Archiver.ThreadArchiverBot.ArchiveThread | main.py:706-759 | one archive attempt moves the counters and detail map as Bookkeeping.ArchiveStep says, edits only an unarchived thread, and keeps the detail map well formed |
| Archiver.ThreadArchiverBot.ArchiveThreads | main.py:696-704 | a batch of archive attempts moves the counters as Bookkeeping.ArchiveAll says |
| Archiver.ThreadArchiverBot.CapacityStage | main.py:477-529 | the capacity phase picks and archives as Archiver.CapacityPhase says and reports how many it archived |
| Archiver.ThreadArchiverBot.InactivityStage | main.py:537-579 | the inactivity phase picks and archives as Archiver.InactivityPhase says and reports how many it archived |
| Archiver.ThreadArchiverBot.AuditPhases | main.py:477-607 | from reset counters, capacity control then the inactivity sweep leave the outcome and counters Archiver.Phases computes; the archived count is the sum of both phases' successes |
| Archiver.ThreadArchiverBot.ProcessGuildThreads | main.py:367-607 | a whole audit leaves the outcome, bump records and counters that Archiver.RunSpec computes, and keeps the detail map well formed |
| RunProperties.CapacityPhasePicks | main.py:482-517 | the capacity phase archives min(excess, candidates) threads, none when within the cap, never a pinned or locked one |
| RunProperties.InactivityPhasePicks | main.py:537-568 | the inactivity phase archives nothing when off, and otherwise only unpinned, unarchived, unlocked threads of monitored channels |
| RunProperties.CapacityPhaseTally | main.py:509-529 | the capacity phase's fetches and archives keep the detail map within ten distinct blurbs, never lower the success or failure counter, and keep the earlier blurbs |
| RunProperties.InactivityPhaseTally | main.py:550-579 | the inactivity phase's fetches and archives keep the detail map within ten distinct blurbs, never lower the success or failure counter, and keep the earlier blurbs |
| RunProperties.RunNeverArchivesExempt | main.py:477-579 | in a finished run, no phase archives a pinned or locked thread, and the inactivity phase archives only unarchived threads of monitored channels |
| RunProperties.RunCapacityCount | main.py:477-537 | a finished run's excess counts every listed thread; the capacity phase archives min(excess, candidates), none when within the cap; the inactivity phase archives nothing when it is off |
| RunProperties.RunTallyBounds | main.py:374-607 | every run ends with at most ten distinct detail blurbs; the archived count reported is the success counter; the report is blue iff nothing was archived and nothing was over the cap |

## Left out

- Discord calls (`active_threads`, `history`, `edit`, `send`, `delete`, `fetch_channel`, `get_channel`) are not modelled. They become oracle inputs and success flags, because they are network I/O.
- The archive category lookup (main.py:723-727) is not modelled, because its result is never used.
- `asyncio` fan-out, sleeps and the operation and bump-record locks are not modelled. Fetches and archives run sequentially in input order. In the source, `gather` zips fetch results in input order, and the final counter values do not depend on order. The detail map does: its blurbs are numbered by the counter value at completion, and when more than ten archives are attempted in a run, completion order decides which ten threads get blurbs and which `[T n]`/`[E n]` numbers they carry. The model numbers and keeps them in input order.
- File and environment I/O is not modelled: `load_configuration`, `save_guild_setting`, loading and saving bump records, the notice-id file and start-up hooks. The bump records enter the class through its constructor.
- Logging, run hashes (MD5), durations, timezone and date formatting, and all embed and log text are left out. A detail blurb keeps only its key, thread and activity. `Report.PackFields` takes the already-formatted parts as strings.
- Sending the report and the two error embeds (main.py:631-647) is not modelled, because it is I/O with every error swallowed.
- The slash-command plumbing, `manual-guild-archive`, `view_guild_config_cmd` and the periodic task loop are not modelled, because they are command surface.
- `Settings.FromDict` does not distinguish a stored `null` from a missing key. `data.get(key, [])` returns `None` for an explicit null of `monitoring_channel_ids`, and `None` for an explicit null of the moderation lists. The model reads both as missing and runs normally. In the source, a null moderation list makes the settings constructor iterate `None` (main.py:71-72). The resulting `TypeError` is caught by `load_configuration`, which exits the process. A null `monitoring_channel_ids` makes `set(None)` raise at main.py:540 once `inactivity_days > 0`, which ends the run.
- The `int(...)` parsing of moderation role and user ids (main.py:71-72) is not modelled. Ids are integers already.
- Deleting a message in `on_message` raises nothing to the caller. Its `Forbidden`, `NotFound` and other errors are logged and swallowed, so `Moderation.ShouldDelete` stops at the decision to call delete.
- Activity.ResolveAll: uses one clock reading per phase for every thread that falls back to the clock, because the model takes the clock as a parameter. In the source, each failed fetch of a thread with no creation time reads `datetime.now` on its own (main.py:680, 687, 694). Such threads then get distinct stamps, ordered by when their fetches completed. In the model they share one stamp and keep input order.
- Eviction.InactivitySelection: computes the cutoff `now - days * 86400` as an unbounded integer and never fails. In the source, the cutoff `now_utc_naive - timedelta(days=settings.inactivity_days)` (main.py:562) raises `OverflowError` in two cases: when `inactivity_days` exceeds 999,999,999, or when the cutoff falls before year 1 (from roughly 740,000 days). It is only reached when the phase has at least one candidate (main.py:550). `set-archive-rules` stores any value of 0 or more (main.py:791). In the source, such a run ends there with no inactivity archives and no report. The model finishes it, because `datetime` ranges are not modelled.
- Settings.Lookup: the registry is a sequence and may hold two records with the same guild id. The lookup then returns the first of them. In the source, `load_configuration` writes the registry dict by guild id (main.py:185), so a later config with the same id replaces the earlier one. `Settings.LookupUnique` covers registries with distinct ids, the shape the dict guarantees.
- In `Moderation.ShouldDelete`, an author's roles are present only for guild members. A non-member author has no roles.
