# cuboid-bot core, modelled in Dafny

This project models the bookkeeping inside the `Bot` class of cuboid-bot, a
small Discord bot. The bot does three things:

- **Registry loading** (constructor). It lists the commands directory and keeps
  the `.js`/`.cjs` files. It accepts a module's `slashCommand` export only when
  the export has both `data` and `execute`. Accepted commands go into a map keyed
  by `data.name`, and a later file with the same name overwrites an earlier one.
  An incomplete export is skipped with a warning.
- **Interaction dispatch** (InteractionCreate handler). Interactions that are
  not chat-input commands are ignored. An unknown name is logged as an error and
  left unanswered. Otherwise the executor runs once. If it fails, exactly one
  ephemeral error message is sent: `followUp` when the interaction was already
  replied to or deferred, otherwise `reply`.
- **Ready-time reconciliation** (ClientReady handler). The scope is the
  development guild in debug mode and the application otherwise. Without a
  scope nothing is fetched or edited. Otherwise every chat-input remote command
  that has a local counterpart with a different normalised definition is edited
  to carry the local definition. A closing warning is logged exactly when at
  least one edit was issued.

Modules:

- `Wrappers` (wrappers.dfy): `Option`.
- `Discord` (discord.dfy): abstract records for what the client library hands
  over, such as remote commands, guilds, interactions and responses.
- `Logging` (logging.dfy): structured log entries.
- `Config` (config.dfy): defaults, the `devGuild` getter and the scope choice.
- `Registry` (registry.dfy): the loading specification and its lemmas.
- `Reconcile` (reconcile.dfy): the edit plan, the pass log and convergence.
- `Core` (bot.dfy): the `Bot` class and its handlers.

The environment is modelled as inputs:

- the directory listing is a sequence of (file name, module) pairs;
- `process.env` is an `Environment` value;
- how an executor behaves is a function `run` from an invocation to its outcome;
- fetching a scope's remote commands is a function `fetch`;
- the client is a `ClientState` value (ready flag, guild cache, application,
  user tag).

`command.equals` is structural equality of `CommandDefinition` values.
`data.toJSON()` and the JSON stringify/parse round trip are the identity on
those values. Edits are returned as a list rather than performed.

## Model

| member | source | states |
|---|---|---|
| `Config.DebugMode` | src/core/bot.cjs:27-30 | an explicit boolean option decides; any other option value gives debug exactly when NODE_ENV is not "production" (unset counts as not production) |
| `Config.DevGuildId` | src/core/bot.cjs:32-35 | an explicit string option is the id; any other option value falls back to CUBOID_DEV_GUILD |
| `Config.ResolveDevGuild` | src/core/bot.cjs:220-225 | a guild is found exactly when the client is ready and the configured id is in the guild cache, and it is the cached guild |
| `Config.CommandScope` | src/core/bot.cjs:140-143 | a scope exists exactly when the development guild (debug) or the application (otherwise) exists; it is that guild or that application |
| `Config.ScopeFollowsMode` | src/core/bot.cjs:27-143 | for every option, environment and client, a chosen scope is a guild exactly in debug mode |
| `Config.UnresolvedGuildSkips` | src/core/bot.cjs:135-145 | in debug mode an unready client, an unset id or an uncached id yields no scope |
| `Registry.CommandFiles` | src/core/bot.cjs:61-65 | the kept files are exactly the listed files whose names end in `.js` or `.cjs`, and there are no more of them than listed files |
| `Registry.Entry` | src/core/bot.cjs:71-77 | a file contributes a command exactly when its `slashCommand` export has both `data` and `execute`, and the command is that pair |
| `Registry.Insert` | src/core/bot.cjs:78-81 | an accepted file's name now maps to its command, the keys grow by that name only, every other entry is unchanged, and a non-accepted file changes nothing |
| `Registry.Load` | src/core/bot.cjs:67-90 | every key of the loaded registry maps to a command whose `data.name` is that key |
| `Registry.LoadWarnings` | src/core/bot.cjs:82-88 | loading logs no more warnings than there are files |
| `Registry.LoadWarningsCount` | src/core/bot.cjs:73-88 | the number of warnings equals the number of files whose export exists but lacks `data` or `execute` |
| `Registry.LoadWarningsExact` | src/core/bot.cjs:73-88 | a warning is logged exactly for each file whose export exists but lacks `data` or `execute`, naming the file's path; files without an export are skipped silently |
| `Registry.CommandFilesAppend` | src/core/bot.cjs:61-65 | the filter distributes over concatenation, so it keeps the listing order |
| `Registry.LoadKeys` | src/core/bot.cjs:67-81 | a name is registered exactly when some loaded file exports a complete command declaring that name |
| `Registry.LoadSkipsUnaccepted` | src/core/bot.cjs:71-89 | a file without a complete export leaves the registry built from the other files unchanged, whatever comes before and after it |
| `Registry.LoadLastWins` | src/core/bot.cjs:78-81 | a file declaring a name that no later file redeclares decides the registry entry for that name |
| `Registry.RegistryKeys` | src/core/bot.cjs:58-81 | over a whole listing, a name is registered exactly when some `.js`/`.cjs` file exports a complete command with that `data.name` |
| `Registry.RegistryLastWins` | src/core/bot.cjs:58-81 | over a whole listing, among command files sharing a name the one listed last is registered |
| `Reconcile.PlanEdits` | src/core/bot.cjs:150-183 | a pass issues no more edits than there are remote commands |
| `Reconcile.PlanEditsExact` | src/core/bot.cjs:161-181 | an edit is issued exactly for each chat-input remote command that has a local command of its name with a different definition, and it carries that local definition; nothing else is edited |
| `Reconcile.PlanEditsDistinctTargets` | src/core/bot.cjs:150-180 | with distinct remote ids, no remote command is edited twice in one pass: the edits target pairwise distinct ids |
| `Reconcile.PlanEditsEmptyIffInSync` | src/core/bot.cjs:161-171 | a pass issues no edit exactly when no remote command has drifted from its local definition |
| `Reconcile.SingleDriftSingleEdit` | src/core/bot.cjs:169-180 | one drifted remote command among matching ones yields exactly one edit, carrying the local definition |
| `Reconcile.ReconcileConverges` | src/core/bot.cjs:169-178 | after the service applies a pass's edits, drifted commands hold their local definitions, all others are untouched, and a second pass issues no edit |
| `Core.LoadedRegistryConverges` | src/core/bot.cjs:58-183 | for a registry loaded from any listing, reconciling twice issues no edit the second time |
| `Core.PassLogQuiet` | src/core/bot.cjs:150-191 | the per-command logging of a pass never emits the closing "Synchronized one or more commands!" warning |
| `Core.Bot.constructor` | src/core/bot.cjs:20-90 | the debug flag and guild id are the resolved defaults, the registry is the one built from the listing, and the log holds the loading warnings in order |
| `Core.Bot.HandleInteraction` | src/core/bot.cjs:94-130 | a non-command interaction causes no lookup, call, log or reply. An unknown name causes only an error log. A known name calls its executor once with the bot and the interaction. A failure logs the error and sends exactly one ephemeral error message, a follow-up exactly when replied or deferred |
| `Core.Bot.SynchronizeCommands` | src/core/bot.cjs:148-191 | the edits are exactly the planned ones, `ranSynchronization` is true exactly when an edit was issued, and the closing warning is logged exactly then |
| `Core.Bot.OnReady` | src/core/bot.cjs:132-198 | the scope is the configured choice; without one nothing is fetched or edited and an error is logged; a rejected fetch aborts the handler with no edit and no further log entry; otherwise the edits are the plan for that scope's commands; the warning appears exactly when edits were issued |
| `Core.PingScenario` | src/commands/ping.cjs:5-22 | with the ping module loaded, a `ping` interaction calls the ping executor once and, when it completes, nothing is logged or sent by the dispatcher |

## Left out

- Logger construction and pino transport setup are not modelled (src/core/bot.cjs:37-56). Neither is the relay of the client's error, warn and debug events (src/core/bot.cjs:207-217). Both are logging plumbing with no decisions in them.
- Log text is not modelled: entries are structured `Logging.Message` values. The remote-command description string (guild name, command name, type) is represented by the remote command record itself.
- Directory reading and `require` are not modelled: the listing and its modules are an input sequence. `path.join` is modelled as joining with "/".
- JavaScript truthiness of `command.slashCommand` is reduced to present or absent; absent covers every falsy value. Two kinds of export make the source's constructor throw, so that no `Bot` exists, and the model excludes them: a truthy non-object `slashCommand` (such as `true`), on which `'data' in` throws (src/core/bot.cjs:75), and a `data` field that is present but `null` or `undefined`, on which reading `data.name` throws (src/core/bot.cjs:79). `Registry.SlashCommandExport` cannot express either.
- `start`/`stop` (client login and destroy), the discord.js `Client`, guild cache resolution, and the internals of `command.equals` and `command.edit` are foreign library calls. They are replaced by records and structural equality.
- Presence setting at ready time (src/core/bot.cjs:200-204) is a fixed demonstration string and is left out.
- Asynchrony is not modelled. Edits are not awaited in the source; here they are a returned list, and the order in which they complete is not modelled. Handlers are modelled as single atomic steps.
- Core.Bot.OnReady: a rejected `commandManager.fetch` (src/core/bot.cjs:150) is modelled as `aborted`, with no command checked, no edit and no closing warning. The source has no try/catch there, so the rejection also escapes the ready listener unhandled and the presence is never set (src/core/bot.cjs:200-204). That escape and the presence are not modelled.
- A failure of the error `reply`/`followUp` call itself is not modelled (it would reject the handler's promise).
- `Core.Bot.log` holds only what the constructor logs. The two event handlers return their log entries instead of appending them, because they change no state of the bot.
- `Reconcile.ReconcileConverges`: requires that the fetched remote commands have distinct ids. Edits are applied by id, and the service guarantees unique ids.
- src/bot.cjs (an older constructor with only logger, presence and a test error) and src/app.cjs (process start-up) are not part of this model.
