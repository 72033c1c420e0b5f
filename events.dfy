/**
 * The event envelope and the closed catalog of event kinds.
 *
 * Every event record is an envelope (the raw gateway payload, JSON text or
 * ETF bytes, and the shard it came from, which may be absent) plus a
 * kind-specific payload. The payload fields of the notification kinds
 * (snowflakes, copied aggregates, cache pointers) carry no behaviour and
 * are represented only by their kind tag;
 * the four interaction kinds carry the data `get_parameter` looks at.
 */
module Events {
  import opened Optional

  /** One tag per listener vector of the dispatcher, in declaration order. */
  datatype Kind =
    | Log | VoiceStateUpdate | VoiceClientSpeaking | VoiceClientDisconnect
    | InteractionCreate | ButtonClick | Autocomplete | SelectClick
    | GuildDelete | ChannelDelete | ChannelUpdate | Ready | MessageDelete
    | ApplicationCommandDelete | GuildMemberRemove | ApplicationCommandCreate
    | Resumed | GuildRoleCreate | TypingStart | MessageReactionAdd
    | GuildMembersChunk | MessageReactionRemove | GuildCreate | ChannelCreate
    | MessageReactionRemoveEmoji | MessageDeleteBulk | GuildRoleUpdate
    | GuildRoleDelete | ChannelPinsUpdate | MessageReactionRemoveAll
    | VoiceServerUpdate | GuildEmojisUpdate | PresenceUpdate | WebhooksUpdate
    | GuildMemberAdd | InviteDelete | GuildUpdate | GuildIntegrationsUpdate
    | GuildMemberUpdate | ApplicationCommandUpdate | InviteCreate
    | MessageUpdate | UserUpdate | MessageCreate | GuildBanAdd | GuildBanRemove
    | IntegrationCreate | IntegrationUpdate | IntegrationDelete
    | ThreadCreate | ThreadUpdate | ThreadDelete | ThreadListSync
    | ThreadMemberUpdate | ThreadMembersUpdate
    | VoiceBufferSend | VoiceUserTalking | VoiceReady | VoiceReceive
    | VoiceTrackMarker | GuildJoinRequestDelete
    | StageInstanceCreate | StageInstanceUpdate | StageInstanceDelete
    | StickersUpdate
    | GuildScheduledEventCreate | GuildScheduledEventUpdate
    | GuildScheduledEventDelete | GuildScheduledEventUserAdd
    | GuildScheduledEventUserRemove

  /** The kinds whose records derive from the interaction record. */
  predicate IsInteractionKind(k: Kind) {
    k.InteractionCreate? || k.ButtonClick? || k.Autocomplete? || k.SelectClick?
  }

  /** A kind that is a pure notification: its record adds only plain fields to the envelope. */
  type NotificationKind = k: Kind | !IsInteractionKind(k) witness Log

  type Snowflake = nat

  /** The value of one named command parameter: empty, or one of the scalar alternatives. */
  datatype CommandValue = Empty | Str(s: string) | Int(i: int) | Bool(b: bool) | Id(id: Snowflake)

  /** A parameter the user filled in when invoking a command. */
  datatype CommandDataOption = CommandDataOption(name: string, value: CommandValue)

  /** The interaction a command, button, select menu or autocomplete request arrived with. */
  datatype CommandInteraction = CommandInteraction(commandId: Snowflake, options: seq<CommandDataOption>)

  /** An option declared by a command, as listed in an autocomplete request. */
  datatype CommandOption = CommandOption(name: string, description: string)

  /** Which of the four interaction records an interaction event is. */
  datatype InteractionVariant =
    | Generic
    | Button(customId: string, componentType: bv8)
    | AutocompleteRequest(id: Snowflake, name: string, autocompleteOptions: seq<CommandOption>)
    | Select(customId: string, values: seq<string>, componentType: bv8)

  /** Every interaction record carries the command interaction it derives from. */
  datatype InteractionEvent = InteractionEvent(command: CommandInteraction, variant: InteractionVariant)

  datatype Payload =
    | Notification(kind: NotificationKind)
    | Interaction(interaction: InteractionEvent)

  /**
   * The envelope: the raw gateway payload (JSON text or ETF bytes), the
   * originating shard (absent for voice and cluster log events) and the
   * payload. It is a value: nothing a listener
   * does can change it.
   */
  datatype Event = Event(raw: string, from: Option<nat>, payload: Payload)

  /** The listener vector an event is delivered to: each record goes to the vector typed by that record. */
  function KindOf(e: Event): (k: Kind)
    ensures IsInteractionKind(k) <==> e.payload.Interaction?
    ensures e.payload.Notification? ==> k == e.payload.kind
    ensures e.payload.Interaction? && e.payload.interaction.variant.Generic? ==> k == InteractionCreate
    ensures e.payload.Interaction? && e.payload.interaction.variant.Button? ==> k == ButtonClick
    ensures e.payload.Interaction? && e.payload.interaction.variant.AutocompleteRequest? ==> k == Autocomplete
    ensures e.payload.Interaction? && e.payload.interaction.variant.Select? ==> k == SelectClick
  {
    match e.payload
    case Notification(kind) => kind
    case Interaction(ie) =>
      match ie.variant
      case Generic => InteractionCreate
      case Button(_, _) => ButtonClick
      case AutocompleteRequest(_, _, _) => Autocomplete
      case Select(_, _, _) => SelectClick
  }
}
