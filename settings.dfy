/** Guild archive settings (`GuildArchiveSettings`, main.py:52-104) and the
    `set-archive-rules` update (main.py:774-798). Numbers read with
    `dict.get` may be missing, so they are optional here as in the source. */
module Settings {
  import opened Snapshot

  /** The "pinned_thread_moderation" sub-dictionary of a stored config. */
  datatype ModerationConfig = ModerationConfig(
    enabled: Option<bool>,
    allowedRoleIds: Option<seq<int>>,
    allowedUserIds: Option<seq<int>>)

  /** A stored guild configuration; `None` is a missing key or a null. */
  datatype ConfigDict = ConfigDict(
    guildId: Option<int>,
    onlyArchiveMonitoredChannels: Option<bool>,
    monitoringChannelIds: Option<seq<int>>,
    archiveCategoryId: Option<int>,
    inactivityDays: Option<int>,
    notificationThreadId: Option<int>,
    maxActivePosts: Option<int>,
    maxActiveThreads: Option<int>,
    lastNoticeMessageId: Option<int>,
    pinnedThreadModeration: Option<ModerationConfig>)

  datatype GuildArchiveSettings = GuildArchiveSettings(
    guildId: int,
    configName: string,
    onlyArchiveMonitoredChannels: bool,
    monitoringChannelIds: seq<int>,
    archiveCategoryId: Option<int>,
    inactivityDays: Option<int>,
    notificationThreadId: Option<int>,
    maxActivePosts: Option<int>,
    maxActiveThreads: Option<int>,
    lastNoticeMessageId: Option<int>,
    pinnedModEnabled: bool,
    allowedRoleIds: seq<int>,
    allowedUserIds: seq<int>)

  function OrElse<T>(o: Option<T>, default: T): T {
    match o
    case Some(v) => v
    case None => default
  }

  /** The constructor: the monitored-only flag is stored as false whatever
      is passed, and a missing moderation section means "disabled, nobody
      exempt". */
  function NewSettings(guildId: int, configName: string, onlyArchiveMonitoredChannels: bool,
                       monitoringChannelIds: seq<int>, archiveCategoryId: Option<int>,
                       inactivityDays: Option<int>, notificationThreadId: Option<int>,
                       maxActivePosts: Option<int>, maxActiveThreads: Option<int>,
                       lastNoticeMessageId: Option<int>, moderation: Option<ModerationConfig>): (s: GuildArchiveSettings)
    ensures !s.onlyArchiveMonitoredChannels
    ensures moderation.None? ==> !s.pinnedModEnabled && s.allowedRoleIds == [] && s.allowedUserIds == []
  {
    var mod := OrElse(moderation, ModerationConfig(None, None, None));
    GuildArchiveSettings(
      guildId, configName, false, monitoringChannelIds, archiveCategoryId, inactivityDays,
      notificationThreadId, maxActivePosts, maxActiveThreads, lastNoticeMessageId,
      OrElse(mod.enabled, false), OrElse(mod.allowedRoleIds, []), OrElse(mod.allowedUserIds, []))
  }

  /** `from_dict`: keys read with their defaults; numbers without one stay
      missing. */
  function FromDict(guildId: int, configName: string, data: ConfigDict): (s: GuildArchiveSettings)
    ensures s.guildId == guildId && s.configName == configName
    ensures !s.onlyArchiveMonitoredChannels
    ensures s.inactivityDays == data.inactivityDays && s.maxActiveThreads == data.maxActiveThreads
  {
    NewSettings(guildId, configName, OrElse(data.onlyArchiveMonitoredChannels, false),
                OrElse(data.monitoringChannelIds, []), data.archiveCategoryId, data.inactivityDays,
                data.notificationThreadId, data.maxActivePosts, data.maxActiveThreads,
                data.lastNoticeMessageId, data.pinnedThreadModeration)
  }

  /** `to_dict`: every policy field, but neither the config name nor the
      moderation section. */
  function ToDict(s: GuildArchiveSettings): ConfigDict {
    ConfigDict(Some(s.guildId), Some(s.onlyArchiveMonitoredChannels), Some(s.monitoringChannelIds),
               s.archiveCategoryId, s.inactivityDays, s.notificationThreadId, s.maxActivePosts,
               s.maxActiveThreads, s.lastNoticeMessageId, None)
  }

  /** Reading back what `to_dict` wrote restores every policy field and
      resets the moderation settings to disabled with nobody exempt. */
  lemma DictRoundTrip(s: GuildArchiveSettings)
    requires !s.onlyArchiveMonitoredChannels
    ensures FromDict(s.guildId, s.configName, ToDict(s)) ==
      s.(pinnedModEnabled := false, allowedRoleIds := [], allowedUserIds := [])
  {
  }

  /** Why the rules update was refused. */
  datatype RulesError = ConfigNotFound
  datatype Result<+R, +E> = Success(value: R) | Failure(error: E)

  /** The first registered settings with this config name, in registry
      order, as the source's loop with `break` finds it. */
  function FindByName(registry: seq<GuildArchiveSettings>, name: string): (r: Option<nat>)
    ensures r.Some? ==> r.value < |registry| && registry[r.value].configName == name
    ensures r.Some? ==> forall j :: 0 <= j < r.value ==> registry[j].configName != name
    ensures r.None? ==> forall j :: 0 <= j < |registry| ==> registry[j].configName != name
  {
    if |registry| == 0 then None
    else if registry[0].configName == name then Some(0)
    else match FindByName(registry[1..], name)
      case None => None
      case Some(k) => Some(k + 1)
  }

  /** The new value of a rule: a negative input keeps the old value. */
  function KeepIfNegative(input: int, current: Option<int>): Option<int> {
    if input >= 0 then Some(input) else current
  }

  /** `set-archive-rules`: updates the inactivity days and the per-channel
      post cap of the named config, in the registry and in the stored
      configuration. The server-wide thread cap is accepted but ignored.
      A guild id of 0 reads as "not found". */
  function SetArchiveRules(registry: seq<GuildArchiveSettings>, stored: map<string, ConfigDict>,
                           configName: string, inactivityDays: int, maxActivePosts: int,
                           maxActiveThreads: int): Result<(seq<GuildArchiveSettings>, map<string, ConfigDict>), RulesError>
  {
    match FindByName(registry, configName)
    case None => Failure(ConfigNotFound)
    case Some(k) =>
      var target := registry[k];
      if target.guildId == 0 then Failure(ConfigNotFound)
      else
        var updated := target.(inactivityDays := KeepIfNegative(inactivityDays, target.inactivityDays),
                               maxActivePosts := KeepIfNegative(maxActivePosts, target.maxActivePosts));
        var newStored :=
          if configName in stored then
            stored[configName := stored[configName].(inactivityDays := updated.inactivityDays,
                                                     maxActivePosts := updated.maxActivePosts)]
          else stored;
        Success((registry[k := updated], newStored))
  }

  /** The update touches only the named entry and only its two rules; a
      negative input keeps the old value; the thread cap never changes;
      the stored copy of that entry takes the two new values and nothing
      else in the stored configuration changes. It fails exactly when no
      entry has the name or the first one has guild id 0. */
  lemma SetArchiveRulesEffect(registry: seq<GuildArchiveSettings>, stored: map<string, ConfigDict>,
                              configName: string, inactivityDays: int, maxActivePosts: int, maxActiveThreads: int)
    ensures var r := SetArchiveRules(registry, stored, configName, inactivityDays, maxActivePosts, maxActiveThreads);
      && (r.Failure? <==> FindByName(registry, configName).None? || registry[FindByName(registry, configName).value].guildId == 0)
      && (r.Success? ==>
            var k := FindByName(registry, configName).value;
            var (reg, st) := r.value;
            && |reg| == |registry|
            && (forall j :: 0 <= j < |registry| && j != k ==> reg[j] == registry[j])
            && reg[k].maxActiveThreads == registry[k].maxActiveThreads
            && reg[k].inactivityDays == (if inactivityDays >= 0 then Some(inactivityDays) else registry[k].inactivityDays)
            && reg[k].maxActivePosts == (if maxActivePosts >= 0 then Some(maxActivePosts) else registry[k].maxActivePosts)
            && reg[k] == registry[k].(inactivityDays := reg[k].inactivityDays, maxActivePosts := reg[k].maxActivePosts)
            && st.Keys == stored.Keys
            && (forall n :: n in stored && n != configName ==> st[n] == stored[n])
            && (configName in stored ==>
                  st[configName] == stored[configName].(inactivityDays := reg[k].inactivityDays,
                                                        maxActivePosts := reg[k].maxActivePosts)))
  {
  }

  /** The settings of a guild id, as the `dict.get` on the registry. */
  function Lookup(registry: seq<GuildArchiveSettings>, guildId: int): (r: Option<GuildArchiveSettings>)
    ensures r.Some? ==> r.value in registry && r.value.guildId == guildId
    ensures r.None? ==> forall s :: s in registry ==> s.guildId != guildId
  {
    if |registry| == 0 then None
    else if registry[0].guildId == guildId then Some(registry[0])
    else Lookup(registry[1..], guildId)
  }

  /** The registry is a dictionary keyed by guild id, so each id names at
      most one settings record. */
  predicate DistinctGuildIds(registry: seq<GuildArchiveSettings>) {
    forall j, k :: 0 <= j < k < |registry| ==> registry[j].guildId != registry[k].guildId
  }

  /** On a registry with distinct guild ids, the lookup finds a record
      exactly when that record is registered under the id. */
  lemma {:induction false} LookupUnique(registry: seq<GuildArchiveSettings>, guildId: int, s: GuildArchiveSettings)
    requires DistinctGuildIds(registry)
    ensures Lookup(registry, guildId) == Some(s) <==> s in registry && s.guildId == guildId
    decreases |registry|
  {
    if |registry| > 0 && registry[0].guildId != guildId {
      assert DistinctGuildIds(registry[1..]) by {
        forall j, k | 0 <= j < k < |registry[1..]|
          ensures registry[1..][j].guildId != registry[1..][k].guildId
        {
          assert registry[1..][j] == registry[j + 1] && registry[1..][k] == registry[k + 1];
        }
      }
      LookupUnique(registry[1..], guildId, s);
      assert s in registry && s != registry[0] ==> s in registry[1..];
    } else if |registry| > 0 && s in registry && s.guildId == guildId {
      var j :| 0 <= j < |registry| && registry[j] == s;
      assert j == 0;
    }
  }
}
