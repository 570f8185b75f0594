/**
 * Log entries written by the bot's logger, kept as structured events rather
 * than formatted text. Each message names the text the bot writes.
 */
module Logging {
  import opened Discord

  datatype Level = Debug | Info | Warn | Error

  datatype Message =
    | InvalidSlashCommand(path: string)            // "Ignoring invalid slashCommand object in <path>"
    | UnrecognizedCommand(name: string)            // "Received interaction for unrecognized command <name>"
    | ExecutorError(error: string)                 // the error thrown by an executor
    | LoggedIn(userTag: string)                    // "Ready! Logged in as: <tag>"
    | DevelopmentGuild(guild: Guild)               // "Development guild: <name> (<id>)"
    | Checking(command: RemoteCommand)             // "Checking <description>"
    | UnhandledRegistration(command: RemoteCommand) // "Registration for unhandled <description>"
    | Synchronizing(command: RemoteCommand)        // "Synchronizing registration for <description>"
    | LocalDefinition(definition: CommandDefinition)
    | RemoteDefinition(command: RemoteCommand)
    | SynchronizedCommands                         // "Synchronized one or more commands! ..."
    | NoCommandScope                               // "No valid command scope found! ..."

  datatype LogEvent = LogEvent(level: Level, message: Message)
}
