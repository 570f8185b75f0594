/**
 * Start-up configuration of the bot: the debug-mode and development-guild
 * defaults, the `devGuild` lookup and the choice of the command scope.
 */
module Config {
  import opened Wrappers
  import opened Discord

  /** A JavaScript option value, as far as `typeof` tells values apart. */
  datatype JsValue = Undefined | JsBoolean(b: bool) | JsString(s: string) | JsOther

  /** The `botOptions` argument of the constructor. */
  datatype BotOptions = BotOptions(debugMode: JsValue, devGuildId: JsValue)

  /** The two process environment variables the bot reads. */
  datatype Environment = Environment(nodeEnv: Option<string>, cuboidDevGuild: Option<string>)

  const Production: string := "production"

  /**
   * Debug mode: an explicit boolean option wins; anything else falls back to
   * "not running in production" (an unset NODE_ENV counts as not production).
   */
  function DebugMode(option: JsValue, env: Environment): (debug: bool)
    ensures option.JsBoolean? ==> debug == option.b
    ensures !option.JsBoolean? ==> (debug <==> env.nodeEnv != Some(Production))
  {
    match option
    case JsBoolean(b) => b
    case _ => env.nodeEnv != Some(Production)
  }

  /** The development guild id: an explicit string option wins, else CUBOID_DEV_GUILD. */
  function DevGuildId(option: JsValue, env: Environment): (id: Option<string>)
    ensures option.JsString? ==> id == Some(option.s)
    ensures !option.JsString? ==> id == env.cuboidDevGuild
  {
    match option
    case JsString(s) => Some(s)
    case _ => env.cuboidDevGuild
  }

  /**
   * The `devGuild` getter: nothing before the client is ready, otherwise the
   * guild cache resolves the configured id (nothing for an unset or unknown id).
   */
  function ResolveDevGuild(client: ClientState, devGuildId: Option<string>): (guild: Option<Guild>)
    ensures guild.Some? <==> client.ready && devGuildId.Some? && devGuildId.value in client.guilds
    ensures guild.Some? ==> guild.value == client.guilds[devGuildId.value]
  {
    if !client.ready then None
    else match devGuildId
      case None => None
      case Some(id) => if id in client.guilds then Some(client.guilds[id]) else None
  }

  /**
   * The scope whose commands are reconciled: the development guild in debug
   * mode, the application otherwise; None when that choice is unavailable.
   */
  function CommandScope(debugMode: bool, devGuild: Option<Guild>, application: Option<Application>): (scope: Option<Scope>)
    ensures scope.Some? <==> (if debugMode then devGuild.Some? else application.Some?)
    ensures scope.Some? && debugMode ==> scope.value == GuildScope(devGuild.value)
    ensures scope.Some? && !debugMode ==> scope.value == ApplicationScope(application.value)
  {
    if debugMode then
      match devGuild
      case None => None
      case Some(g) => Some(GuildScope(g))
    else
      match application
      case None => None
      case Some(a) => Some(ApplicationScope(a))
  }

  /**
   * Fail-safe scope choice: whatever the inputs, a chosen scope is a guild
   * exactly in debug mode, so a debug bot never reconciles the global
   * commands and a production bot never reconciles a guild's.
   */
  lemma ScopeFollowsMode(options: BotOptions, env: Environment, client: ClientState, devGuildId: Option<string>)
    ensures var debug := DebugMode(options.debugMode, env);
            var scope := CommandScope(debug, ResolveDevGuild(client, devGuildId), client.application);
            scope.Some? ==> (scope.value.GuildScope? <==> debug)
  {
  }

  /**
   * In debug mode a development guild that cannot be resolved (client not
   * ready, no id configured, or id not cached) leaves no scope at all.
   */
  lemma UnresolvedGuildSkips(client: ClientState, devGuildId: Option<string>)
    requires !client.ready || devGuildId.None? || devGuildId.value !in client.guilds
    ensures CommandScope(true, ResolveDevGuild(client, devGuildId), client.application) == None
  {
  }
}
