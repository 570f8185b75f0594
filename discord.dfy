/**
 * Abstract records standing for the objects the bot receives from, and hands
 * to, the Discord client library. Only the fields the bot core reads are kept.
 */
module Discord {
  import opened Wrappers

  /** `ApplicationCommandType` of a registered command. */
  datatype CommandType = ChatInput | User | Message | PrimaryEntryPoint

  /** One option of a command's option schema. */
  datatype CommandOption = CommandOption(
    name: string,
    description: string,
    kind: nat,
    required: bool,
    descriptionLocalizations: map<string, string>)

  /**
   * The normalised definition of a slash command, the shape that
   * `data.toJSON()` produces and that `command.equals` compares.
   */
  datatype CommandDefinition = CommandDefinition(
    name: string,
    description: string,
    descriptionLocalizations: map<string, string>,
    options: seq<CommandOption>)

  datatype Guild = Guild(id: string, name: string)

  datatype Application = Application(id: string)

  /** Where commands are registered: one guild, or the whole application. */
  datatype Scope = GuildScope(guild: Guild) | ApplicationScope(application: Application)

  /** A command as registered remotely, as `commandManager.fetch` returns it. */
  datatype RemoteCommand = RemoteCommand(
    id: string,
    kind: CommandType,
    definition: CommandDefinition,
    guild: Option<Guild>)

  /** A request to the remote service: `target.edit(payload)`. */
  datatype Edit = Edit(target: RemoteCommand, payload: CommandDefinition)

  /** An incoming interaction, reduced to what the dispatcher inspects. */
  datatype Interaction = Interaction(id: string, isChatInputCommand: bool, commandName: string)

  /** The options object passed to `interaction.reply` or `interaction.followUp`. */
  datatype MessageOptions = MessageOptions(content: string, ephemeral: bool)

  /** A user-visible answer to an interaction. */
  datatype Response = Reply(options: MessageOptions) | FollowUp(options: MessageOptions)

  /**
   * What the bot can see of the client: whether it is ready, its guild cache
   * (by id), its application and the tag of the logged-in user.
   */
  datatype ClientState = ClientState(
    ready: bool,
    guilds: map<string, Guild>,
    application: Option<Application>,
    userTag: string)
}
