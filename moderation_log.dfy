/**
 * The moderation log of main.py: what the deleted-message handler and the voice-state
 * handler post to a guild's log channel, given the guild's `log_settings` row and which
 * channels the bot can find. Mentions and emoji around the posted text are left out;
 * the model keeps the parts the handlers compute.
 */
module ModerationLog {
  import opened Wrappers
  import opened Database

  /** The longest deleted-message excerpt that is logged, in characters. */
  const MaxLoggedChars: nat := 900

  /** `str.replace(old, new)` for single characters. */
  function ReplaceChar(s: string, from: char, to: char): (r: string)
    ensures |r| == |s|
    ensures forall i :: 0 <= i < |s| ==> r[i] == if s[i] == from then to else s[i]
  {
    if s == [] then []
    else [if s[0] == from then to else s[0]] + ReplaceChar(s[1..], from, to)
  }

  /**
   * `message.content.replace('`', "'")[:900]`: the excerpt cannot close the code block it
   * is posted in, and is at most 900 characters, a prefix of the content otherwise unchanged.
   */
  function LoggedContent(content: string): (r: string)
    ensures |r| == if |content| < MaxLoggedChars then |content| else MaxLoggedChars
    ensures forall i :: 0 <= i < |r| ==> r[i] != '`'
    ensures forall i :: 0 <= i < |r| ==> content[i] != '`' ==> r[i] == content[i]
    ensures forall i :: 0 <= i < |r| ==> content[i] == '`' ==> r[i] == '\''
  {
    var replaced := ReplaceChar(content, '`', '\'');
    if |replaced| < MaxLoggedChars then replaced else replaced[..MaxLoggedChars]
  }

  /** A post to the guild's log channel. */
  datatype DeleteLog = DeleteLog(logChannel: int, excerpt: string)

  /**
   * `on_message_delete`: a post only for a human author in a guild whose settings row
   * exists with delete logging on, and whose log channel the bot can find.
   */
  function MessageDeleteLog(authorIsBot: bool, guild: Option<int>, settings: map<int, LogSetting>,
                            channels: set<int>, content: string): (r: Option<DeleteLog>)
    ensures r.Some? <==>
              && !authorIsBot && guild.Some? && guild.value in settings
              && settings[guild.value].logDeletes && settings[guild.value].channelId in channels
    ensures r.Some? ==> r.value.logChannel == settings[guild.value].channelId
    ensures r.Some? ==> r.value.excerpt == LoggedContent(content)
  {
    if authorIsBot || guild.None? then None
    else if guild.value !in settings || !settings[guild.value].logDeletes then None
    else if settings[guild.value].channelId !in channels then None
    else Some(DeleteLog(settings[guild.value].channelId, LoggedContent(content)))
  }

  /** A voice channel; two are the same channel when their ids agree. */
  datatype VoiceChannel = VoiceChannel(id: int, name: string)

  datatype VoiceEvent = Joined(channel: string) | Left(channel: string)

  predicate SameChannel(before: Option<VoiceChannel>, after: Option<VoiceChannel>)
  {
    (before.None? && after.None?) || (before.Some? && after.Some? && before.value.id == after.value.id)
  }

  /**
   * The action `on_voice_state_update` reports: joining from no channel, leaving to no
   * channel; a move between two channels, or no change, reports nothing.
   */
  function VoiceAction(before: Option<VoiceChannel>, after: Option<VoiceChannel>): (r: Option<VoiceEvent>)
    ensures r.Some? <==> before.None? != after.None?
    ensures before.None? && after.Some? ==> r == Some(Joined(after.value.name))
    ensures before.Some? && after.None? ==> r == Some(Left(before.value.name))
  {
    if SameChannel(before, after) then None
    else if before.None? then Some(Joined(after.value.name))
    else if after.None? then Some(Left(before.value.name))
    else None
  }

  datatype VoiceLog = VoiceLog(logChannel: int, event: VoiceEvent)

  /**
   * `on_voice_state_update`: a post for a join or a leave in a guild that has a settings
   * row whose log channel the bot can find; the delete-logging flag plays no part.
   */
  function VoiceStateLog(guild: Option<int>, settings: map<int, LogSetting>, channels: set<int>,
                         before: Option<VoiceChannel>, after: Option<VoiceChannel>): (r: Option<VoiceLog>)
    ensures r.Some? <==>
              && guild.Some? && guild.value in settings && settings[guild.value].channelId in channels
              && VoiceAction(before, after).Some?
    ensures r.Some? ==> r.value == VoiceLog(settings[guild.value].channelId, VoiceAction(before, after).value)
  {
    if guild.None? || guild.value !in settings then None
    else
      var action := VoiceAction(before, after);
      if settings[guild.value].channelId in channels && action.Some? then
        Some(VoiceLog(settings[guild.value].channelId, action.value))
      else None
  }

  /** Turning delete logging off silences the delete log only: joins and leaves are still posted. */
  lemma DeleteFlagSilencesOnlyDeletes(guildId: int, settings: map<int, LogSetting>, channels: set<int>,
                                      content: string, before: Option<VoiceChannel>, after: Option<VoiceChannel>)
    requires guildId in settings && !settings[guildId].logDeletes
    ensures MessageDeleteLog(false, Some(guildId), settings, channels, content).None?
    ensures settings[guildId].channelId in channels && before.None? && after.Some? ==>
              VoiceStateLog(Some(guildId), settings, channels, before, after).Some?
  {
  }
}
