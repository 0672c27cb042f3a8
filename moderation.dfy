/** The live moderation rule of `on_message` (main.py:296-340): a message in
    a pinned thread of a guild with moderation on is deleted unless its
    author is exempt by user id or by role. */
module Moderation {
  import opened Snapshot
  import opened Settings

  /** The author of a message. `roleIds` is present only when the author
      is a guild member. */
  datatype Author = Author(id: int, isBot: bool, roleIds: Option<set<int>>)

  datatype Channel = ThreadChannel(pinned: bool) | OtherChannel

  datatype Message = Message(author: Author, guildId: Option<int>, channel: Channel)

  /** The exemption test against one guild's settings. */
  predicate IsExempt(a: Author, s: GuildArchiveSettings) {
    || a.id in s.allowedUserIds
    || (a.roleIds.Some? && exists r :: r in a.roleIds.value && r in s.allowedRoleIds)
  }

  /** The guard chain of the handler, in the source's order of early
      returns; true means the handler calls delete. Whatever the delete
      raises (missing permission, already gone, anything else) is logged
      and swallowed. */
  function ShouldDelete(m: Message, registry: seq<GuildArchiveSettings>): (del: bool)
    ensures del <==>
      && !m.author.isBot
      && m.guildId.Some?
      && m.channel == ThreadChannel(true)
      && Lookup(registry, m.guildId.value).Some?
      && Lookup(registry, m.guildId.value).value.pinnedModEnabled
      && m.author.id !in Lookup(registry, m.guildId.value).value.allowedUserIds
      && !(m.author.roleIds.Some? &&
           exists r :: r in m.author.roleIds.value && r in Lookup(registry, m.guildId.value).value.allowedRoleIds)
  {
    if m.author.isBot || m.guildId.None? then false
    else if !m.channel.ThreadChannel? then false
    else if !m.channel.pinned then false
    else match Lookup(registry, m.guildId.value)
      case None => false
      case Some(s) =>
        if !s.pinnedModEnabled then false
        else if m.author.id in s.allowedUserIds then false
        else if m.author.roleIds.Some? && exists r :: r in m.author.roleIds.value && r in s.allowedRoleIds then false
        else true
  }

  /** Exemption depends only on the author and the guild's settings: an
      exempt author's messages are never deleted, and a non-exempt
      author's messages in a pinned thread of a moderated guild always are. */
  lemma ExemptionDecides(m: Message, registry: seq<GuildArchiveSettings>, s: GuildArchiveSettings)
    requires m.guildId.Some? && Lookup(registry, m.guildId.value) == Some(s)
    ensures IsExempt(m.author, s) ==> !ShouldDelete(m, registry)
    ensures !IsExempt(m.author, s) && !m.author.isBot && m.channel == ThreadChannel(true) && s.pinnedModEnabled
      ==> ShouldDelete(m, registry)
  {
  }
}
