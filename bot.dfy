/**
 * The bot core: the `Bot` object with its configuration and command registry,
 * built by the constructor's loading loop, and its two event handlers, the
 * interaction dispatcher and the ready-time reconciliation.
 */
module Core {
  import opened Wrappers
  import opened Discord
  import opened Logging
  import opened Config
  import opened Registry
  import opened Reconcile

  /** The content of the ephemeral message sent when an executor fails. */
  const ExecutionErrorMessage: string := "There was an error while executing this command!"

  /** One call `execute(bot, interaction)`. */
  datatype Invocation = Invocation(bot: Bot, executor: Executor, interaction: Interaction)

  /** How an executor call ended, with the interaction's `replied`/`deferred` flags when it threw. */
  datatype Outcome = Completed | Threw(error: string, replied: bool, deferred: bool)

  /**
   * Everything one interaction causes: the registry lookup (if any), the
   * executor call (if any), the log entries and the answer sent (if any).
   */
  datatype Dispatch = Dispatch(
    lookup: Option<string>,
    invoked: Option<Invocation>,
    logged: seq<LogEvent>,
    response: Option<Response>)

  class Bot {
    const debugMode: bool
    const devGuildId: Option<string>
    /** The command registry, keyed by command name. */
    var slashCommands: CommandMap
    /** The entries the constructor wrote to the logger. */
    var log: seq<LogEvent>

    /**
     * Resolves the configuration defaults and loads the registry from the
     * listing of `commandsPath`: only `.js`/`.cjs` files, only complete
     * `slashCommand` exports, later names overwriting earlier ones, and one
     * warning per incomplete export.
     */
    constructor (options: BotOptions, env: Environment, commandsPath: string, directory: seq<CommandFile>)
      ensures debugMode == DebugMode(options.debugMode, env)
      ensures devGuildId == DevGuildId(options.devGuildId, env)
      ensures slashCommands == BuildRegistry(directory)
      ensures log == LoadWarnings(commandsPath, CommandFiles(directory))
    {
      debugMode := DebugMode(options.debugMode, env);
      devGuildId := DevGuildId(options.devGuildId, env);
      slashCommands := map[];
      log := [];
      new;
      var commandNames := CommandFiles(directory);
      for i := 0 to |commandNames|
        invariant slashCommands == Load(commandNames[..i])
        invariant log == LoadWarnings(commandsPath, commandNames[..i])
      {
        var file := commandNames[i];
        var commandPath := JoinPath(commandsPath, file.fileName);
        ghost var done := commandNames[..i + 1];
        assert done[..i] == commandNames[..i] && done[i] == file;
        assert Load(done) == Insert(Load(commandNames[..i]), file);
        assert LoadWarnings(commandsPath, done) == LoadWarnings(commandsPath, commandNames[..i])
          + if Rejected(file) then [LogEvent(Warn, InvalidSlashCommand(commandPath))] else [];
        match file.exports.slashCommand {
          case None =>
          case Some(slashCommand) =>
            if slashCommand.data.Some? && slashCommand.execute.Some? {
              var command := SlashCommand(slashCommand.data.value, slashCommand.execute.value);
              assert Entry(file) == Some(command);
              slashCommands := slashCommands[command.data.name := command];
            } else {
              log := log + [LogEvent(Warn, InvalidSlashCommand(commandPath))];
            }
        }
      }
      assert commandNames[..|commandNames|] == commandNames;
    }

    /**
     * The InteractionCreate handler. `run` says how the executor behaves on a
     * given call. Non-command interactions are ignored; unknown names are
     * logged and left unanswered; otherwise the executor runs once, and a
     * failure yields exactly one ephemeral error message, a follow-up when the
     * interaction was already replied to or deferred and a reply otherwise.
     */
    function HandleInteraction(interaction: Interaction, run: Invocation -> Outcome): (d: Dispatch)
      reads this
      ensures d.lookup == if interaction.isChatInputCommand then Some(interaction.commandName) else None
      ensures !interaction.isChatInputCommand ==> d.invoked.None? && d.logged == [] && d.response.None?
      ensures d.invoked.Some? <==> interaction.isChatInputCommand && interaction.commandName in slashCommands
      ensures d.invoked.Some? ==>
        d.invoked.value == Invocation(this, slashCommands[interaction.commandName].execute, interaction)
      ensures interaction.isChatInputCommand && interaction.commandName !in slashCommands ==>
        d.logged == [LogEvent(Error, UnrecognizedCommand(interaction.commandName))]
      ensures d.response.Some? <==> d.invoked.Some? && run(d.invoked.value).Threw?
      ensures d.invoked.Some? && run(d.invoked.value).Completed? ==> d.logged == []
      ensures d.invoked.Some? && run(d.invoked.value).Threw? ==>
        var thrown := run(d.invoked.value);
        && d.logged == [LogEvent(Error, ExecutorError(thrown.error))]
        && d.response.value.options == MessageOptions(ExecutionErrorMessage, true)
        && (d.response.value.FollowUp? <==> thrown.replied || thrown.deferred)
    {
      if !interaction.isChatInputCommand then Dispatch(None, None, [], None)
      else
        var name := interaction.commandName;
        if name !in slashCommands then
          Dispatch(Some(name), None, [LogEvent(Error, UnrecognizedCommand(name))], None)
        else
          var invocation := Invocation(this, slashCommands[name].execute, interaction);
          match run(invocation)
          case Completed => Dispatch(Some(name), Some(invocation), [], None)
          case Threw(error, replied, deferred) =>
            var options := MessageOptions(ExecutionErrorMessage, true);
            var response := if replied || deferred then FollowUp(options) else Reply(options);
            Dispatch(Some(name), Some(invocation), [LogEvent(Error, ExecutorError(error))], Some(response))
    }

    /**
     * One reconciliation pass over the fetched remote commands: the edits it
     * issues, whether it ran a synchronization, and what it logs, ending with
     * the "Synchronized one or more commands!" warning exactly when it did.
     */
    method SynchronizeCommands(commands: seq<RemoteCommand>)
      returns (edits: seq<Edit>, ranSynchronization: bool, logged: seq<LogEvent>)
      ensures edits == PlanEdits(slashCommands, commands)
      ensures ranSynchronization <==> edits != []
      ensures logged == PassLog(slashCommands, commands)
                        + if ranSynchronization then [LogEvent(Warn, SynchronizedCommands)] else []
    {
      edits, ranSynchronization, logged := [], false, [];
      for i := 0 to |commands|
        invariant edits == PlanEdits(slashCommands, commands[..i])
        invariant ranSynchronization <==> edits != []
        invariant logged == PassLog(slashCommands, commands[..i])
      {
        var command := commands[i];
        assert commands[..i + 1][..i] == commands[..i];
        logged := logged + [LogEvent(Debug, Checking(command))];
        if command.kind == ChatInput {
          if command.definition.name !in slashCommands {
            logged := logged + [LogEvent(Warn, UnhandledRegistration(command))];
          } else {
            var slashCommand := slashCommands[command.definition.name];
            var localCommand := slashCommand.data;
            if command.definition != localCommand {
              logged := logged + [ LogEvent(Info, Synchronizing(command)),
                                   LogEvent(Debug, LocalDefinition(localCommand)),
                                   LogEvent(Debug, RemoteDefinition(command)) ];
              edits := edits + [Edit(command, slashCommand.data)];
              ranSynchronization := true;
            }
          }
        }
      }
      assert commands[..|commands|] == commands;
      if ranSynchronization {
        logged := logged + [LogEvent(Warn, SynchronizedCommands)];
      }
    }

    /**
     * The ClientReady handler. `fetch` gives the remote commands of a scope,
     * or None when the fetch is rejected. It picks the scope (the development
     * guild in debug mode, else the application), fetches from it and
     * reconciles; without a scope it fetches nothing, edits nothing and logs
     * an error. A rejected fetch aborts the handler (`aborted`): nothing is
     * checked, edited or logged after it.
     */
    method OnReady(client: ClientState, fetch: Scope -> Option<seq<RemoteCommand>>)
      returns (fetched: Option<Scope>, aborted: bool, edits: seq<Edit>, logged: seq<LogEvent>)
      ensures fetched == CommandScope(debugMode, ResolveDevGuild(client, devGuildId), client.application)
      ensures aborted <==> fetched.Some? && fetch(fetched.value).None?
      ensures var devGuild := ResolveDevGuild(client, devGuildId);
        logged == [LogEvent(Info, LoggedIn(client.userTag))]
                  + (if devGuild.Some? then [LogEvent(Info, DevelopmentGuild(devGuild.value))] else [])
                  + if fetched.None? then [LogEvent(Error, NoCommandScope)]
                    else if aborted then []
                    else PassLog(slashCommands, fetch(fetched.value).value)
                         + if edits != [] then [LogEvent(Warn, SynchronizedCommands)] else []
      ensures fetched.None? || aborted ==> edits == []
      ensures fetched.Some? && !aborted ==> edits == PlanEdits(slashCommands, fetch(fetched.value).value)
      ensures LogEvent(Warn, SynchronizedCommands) in logged <==> edits != []
    {
      logged := [LogEvent(Info, LoggedIn(client.userTag))];
      var devGuild := ResolveDevGuild(client, devGuildId);
      if devGuild.Some? {
        logged := logged + [LogEvent(Info, DevelopmentGuild(devGuild.value))];
      }
      var commandScope := CommandScope(debugMode, devGuild, client.application);
      fetched, aborted, edits := commandScope, false, [];
      if commandScope.Some? {
        match fetch(commandScope.value) {
          case None =>
            aborted := true;
          case Some(commands) =>
            var ranSynchronization, passLog;
            edits, ranSynchronization, passLog := SynchronizeCommands(commands);
            PassLogQuiet(slashCommands, commands);
            logged := logged + passLog;
        }
      } else {
        logged := logged + [LogEvent(Error, NoCommandScope)];
      }
    }
  }

  /** A pass never logs the closing warnings itself. */
  lemma {:induction false} PassLogQuiet(registry: CommandMap, commands: seq<RemoteCommand>)
    ensures LogEvent(Warn, SynchronizedCommands) !in PassLog(registry, commands)
    decreases |commands|
  {
    if commands != [] {
      PassLogQuiet(registry, commands[..|commands| - 1]);
    }
  }

  /**
   * Reconciling against a registry loaded from any directory converges: a
   * second pass over the remote commands as edited by the first issues no edit.
   */
  lemma LoadedRegistryConverges(directory: seq<CommandFile>, commands: seq<RemoteCommand>)
    requires DistinctIds(commands)
    ensures var registry := BuildRegistry(directory);
      PlanEdits(registry, AfterEdits(commands, PlanEdits(registry, commands))) == []
  {
    ReconcileConverges(BuildRegistry(directory), commands);
  }

  /** The `ping` command module: name, description and its two localisations. */
  const PingExecutor: Executor := Executor("ping")
  const PingData: CommandDefinition :=
    CommandDefinition("ping", "Check connectivity.",
                      map["es-ES" := "Probar la conectividad.", "pl" := "Sprawdź łączność."], [])
  const PingFile: CommandFile :=
    CommandFile("ping.cjs", CommandModule(Some(SlashCommandExport(Some(PingData), Some(PingExecutor)))))

  /**
   * With the `ping` module loaded, a `ping` command interaction calls the ping
   * executor once; when it completes, nothing is logged and the dispatcher
   * sends nothing itself (the executor's own "Pong!" reply is its business).
   */
  lemma PingScenario(bot: Bot, interaction: Interaction, run: Invocation -> Outcome)
    requires bot.slashCommands == BuildRegistry([PingFile])
    requires interaction.isChatInputCommand && interaction.commandName == "ping"
    requires run(Invocation(bot, PingExecutor, interaction)) == Completed
    ensures var d := bot.HandleInteraction(interaction, run);
      && d.invoked == Some(Invocation(bot, PingExecutor, interaction))
      && d.logged == []
      && d.response.None?
  {
    assert IsCommandFile(PingFile.fileName) by {
      assert PingFile.fileName[|PingFile.fileName| - 4..] == ".cjs";
    }
    assert CommandFiles([PingFile]) == [PingFile] by {
      assert [PingFile][1..] == [];
    }
    assert Load([PingFile]) == map["ping" := SlashCommand(PingData, PingExecutor)] by {
      assert [PingFile][..0] == [];
      assert Load([]) == map[];
      assert Entry(PingFile) == Some(SlashCommand(PingData, PingExecutor));
    }
  }
}
