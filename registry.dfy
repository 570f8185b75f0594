/**
 * Construction of the slash-command registry from the files of the commands
 * directory: which files are considered, which modules are accepted, and the
 * last-write-wins map keyed by the command's declared name.
 */
module Registry {
  import opened Wrappers
  import opened Discord
  import opened Logging

  /** A handle on a command's `execute` function; what it does is not modelled here. */
  datatype Executor = Executor(id: string)

  /** A registered command: its definition (`data`) and its executor (`execute`). */
  datatype SlashCommand = SlashCommand(data: CommandDefinition, execute: Executor)

  /** The `slashCommand` export of a module: which of `data` and `execute` it has. */
  datatype SlashCommandExport = SlashCommandExport(data: Option<CommandDefinition>, execute: Option<Executor>)

  /** A loaded module; `slashCommand` is None when the export is missing or falsy. */
  datatype CommandModule = CommandModule(slashCommand: Option<SlashCommandExport>)

  /** A directory entry of the commands directory and the module it would load. */
  datatype CommandFile = CommandFile(fileName: string, exports: CommandModule)

  type CommandMap = map<string, SlashCommand>

  predicate EndsWith(s: string, suffix: string) {
    |suffix| <= |s| && s[|s| - |suffix|..] == suffix
  }

  /** Only `.js` and `.cjs` files are loaded as command modules. */
  predicate IsCommandFile(fileName: string) {
    EndsWith(fileName, ".js") || EndsWith(fileName, ".cjs")
  }

  /** `path.join(commandsPath, fileName)`. */
  function JoinPath(dir: string, fileName: string): string {
    dir + "/" + fileName
  }

  /** The directory listing filtered down to command files, in listing order. */
  function CommandFiles(directory: seq<CommandFile>): (files: seq<CommandFile>)
    ensures |files| <= |directory|
    ensures forall f :: f in files <==> f in directory && IsCommandFile(f.fileName)
  {
    if directory == [] then []
    else
      var rest := CommandFiles(directory[1..]);
      assert forall f :: f in directory <==> f == directory[0] || f in directory[1..];
      if IsCommandFile(directory[0].fileName) then [directory[0]] + rest else rest
  }

  /** The command a file contributes: present exactly when the export has both `data` and `execute`. */
  function Entry(f: CommandFile): (entry: Option<SlashCommand>)
    ensures entry.Some? <==>
      f.exports.slashCommand.Some? && f.exports.slashCommand.value.data.Some? && f.exports.slashCommand.value.execute.Some?
    ensures entry.Some? ==>
      entry.value == SlashCommand(f.exports.slashCommand.value.data.value, f.exports.slashCommand.value.execute.value)
  {
    match f.exports.slashCommand
    case None => None
    case Some(slashCommand) =>
      if slashCommand.data.Some? && slashCommand.execute.Some? then Some(SlashCommand(slashCommand.data.value, slashCommand.execute.value))
      else None
  }

  /** A file whose `slashCommand` export exists but lacks `data` or `execute`: warned about. */
  predicate Rejected(f: CommandFile) {
    f.exports.slashCommand.Some? && Entry(f).None?
  }

  /** A file that contributes a command named `name`. */
  predicate Declares(f: CommandFile, name: string) {
    Entry(f).Some? && Entry(f).value.data.name == name
  }

  /** Every key of the registry is the declared name of the command stored under it. */
  ghost predicate Keyed(registry: CommandMap) {
    forall n :: n in registry ==> registry[n].data.name == n
  }

  /**
   * One step of loading: `set(data.name, slashCommand)` for an accepted file;
   * that key now holds the file's command and every other entry is unchanged.
   */
  function Insert(registry: CommandMap, f: CommandFile): (r: CommandMap)
    ensures Entry(f).None? ==> r == registry
    ensures Entry(f).Some? ==>
      && r.Keys == registry.Keys + {Entry(f).value.data.name}
      && r[Entry(f).value.data.name] == Entry(f).value
      && forall n :: n in registry && n != Entry(f).value.data.name ==> r[n] == registry[n]
  {
    match Entry(f)
    case None => registry
    case Some(c) => registry[c.data.name := c]
  }

  /** The registry after loading `files` in order, starting from an empty map. */
  function Load(files: seq<CommandFile>): (registry: CommandMap)
    ensures Keyed(registry)
  {
    if files == [] then map[] else Insert(Load(files[..|files| - 1]), files[|files| - 1])
  }

  /** The registry built from a whole directory listing. */
  function BuildRegistry(directory: seq<CommandFile>): CommandMap {
    Load(CommandFiles(directory))
  }

  /** The warnings logged while loading `files`: one per rejected file, in order. */
  function LoadWarnings(commandsPath: string, files: seq<CommandFile>): (warnings: seq<LogEvent>)
    ensures |warnings| <= |files|
  {
    if files == [] then []
    else
      var last := files[|files| - 1];
      LoadWarnings(commandsPath, files[..|files| - 1])
        + if Rejected(last) then [LogEvent(Warn, InvalidSlashCommand(JoinPath(commandsPath, last.fileName)))] else []
  }

  /** Filtering distributes over concatenation, so it keeps the listing order. */
  lemma {:induction false} CommandFilesAppend(a: seq<CommandFile>, b: seq<CommandFile>)
    ensures CommandFiles(a + b) == CommandFiles(a) + CommandFiles(b)
    decreases |a|
  {
    if a == [] {
      assert a + b == b;
    } else {
      assert (a + b)[1..] == a[1..] + b;
      CommandFilesAppend(a[1..], b);
    }
  }

  /** A name is registered exactly when some loaded file declares it. */
  lemma {:induction false} LoadKeys(files: seq<CommandFile>, name: string)
    ensures name in Load(files) <==> exists f :: f in files && Declares(f, name)
    decreases |files|
  {
    if files != [] {
      var init, last := files[..|files| - 1], files[|files| - 1];
      assert files == init + [last];
      LoadKeys(init, name);
      if name in Load(files) && !Declares(last, name) {
        var f :| f in init && Declares(f, name);
        assert f in files;
      }
    }
  }

  /**
   * A file that is not accepted (no export, or one missing a field) changes
   * nothing: the files before and after it load exactly as if it were absent.
   */
  lemma {:induction false} LoadSkipsUnaccepted(a: seq<CommandFile>, f: CommandFile, b: seq<CommandFile>)
    requires Entry(f).None?
    ensures Load(a + [f] + b) == Load(a + b)
    decreases |b|
  {
    if b == [] {
      assert (a + [f] + b)[..|a + [f] + b| - 1] == a;
      assert a + b == a;
    } else {
      var init, last := b[..|b| - 1], b[|b| - 1];
      assert (a + [f] + b)[..|a + [f] + b| - 1] == a + [f] + init;
      assert (a + b)[..|a + b| - 1] == a + init;
      LoadSkipsUnaccepted(a, f, init);
    }
  }

  /**
   * Last write wins: a file declaring `name` that no later file redeclares
   * decides the registry's entry for `name`.
   */
  lemma {:induction false} LoadLastWins(a: seq<CommandFile>, f: CommandFile, b: seq<CommandFile>, name: string)
    requires Declares(f, name)
    requires forall g :: g in b ==> !Declares(g, name)
    ensures name in Load(a + [f] + b) && Load(a + [f] + b)[name] == Entry(f).value
    decreases |b|
  {
    if b == [] {
      assert (a + [f] + b)[..|a + [f] + b| - 1] == a;
      assert (a + [f] + b)[|a + [f] + b| - 1] == f;
    } else {
      var init, last := b[..|b| - 1], b[|b| - 1];
      assert last in b;
      assert forall g :: g in init ==> g in b;
      assert (a + [f] + b)[..|a + [f] + b| - 1] == a + [f] + init;
      LoadLastWins(a, f, init, name);
    }
  }

  /**
   * Over a whole directory: a name is registered exactly when some `.js` or
   * `.cjs` file exports a complete `slashCommand` whose `data.name` is that name.
   */
  lemma RegistryKeys(directory: seq<CommandFile>, name: string)
    ensures name in BuildRegistry(directory) <==>
      exists f :: f in directory && IsCommandFile(f.fileName) && Declares(f, name)
  {
    LoadKeys(CommandFiles(directory), name);
  }

  /**
   * Over a whole directory: when two command files declare the same name, the
   * one listed last is the one registered.
   */
  lemma RegistryLastWins(a: seq<CommandFile>, f: CommandFile, b: seq<CommandFile>, name: string)
    requires IsCommandFile(f.fileName) && Declares(f, name)
    requires forall g :: g in b && IsCommandFile(g.fileName) ==> !Declares(g, name)
    ensures name in BuildRegistry(a + [f] + b) && BuildRegistry(a + [f] + b)[name] == Entry(f).value
  {
    CommandFilesAppend(a + [f], b);
    CommandFilesAppend(a, [f]);
    assert CommandFiles([f]) == [f] by {
      assert [f][1..] == [];
    }
    LoadLastWins(CommandFiles(a), f, CommandFiles(b), name);
  }

  /** The number of files whose `slashCommand` export is incomplete. */
  function RejectedCount(files: seq<CommandFile>): nat {
    if files == [] then 0
    else RejectedCount(files[..|files| - 1]) + if Rejected(files[|files| - 1]) then 1 else 0
  }

  /** Loading logs exactly one warning per rejected file and no other. */
  lemma {:induction false} LoadWarningsCount(commandsPath: string, files: seq<CommandFile>)
    ensures |LoadWarnings(commandsPath, files)| == RejectedCount(files)
    decreases |files|
  {
    if files != [] {
      LoadWarningsCount(commandsPath, files[..|files| - 1]);
    }
  }

  /** The warnings are exactly one per rejected file, naming the file's path. */
  lemma {:induction false} LoadWarningsExact(commandsPath: string, files: seq<CommandFile>, w: LogEvent)
    ensures w in LoadWarnings(commandsPath, files) <==>
      exists f :: f in files && Rejected(f) && w == LogEvent(Warn, InvalidSlashCommand(JoinPath(commandsPath, f.fileName)))
    decreases |files|
  {
    if files != [] {
      var init, last := files[..|files| - 1], files[|files| - 1];
      assert files == init + [last];
      LoadWarningsExact(commandsPath, init, w);
      if w in LoadWarnings(commandsPath, files) && w !in LoadWarnings(commandsPath, init) {
        assert last in files;
      } else if w in LoadWarnings(commandsPath, init) {
        var f :| f in init && Rejected(f) && w == LogEvent(Warn, InvalidSlashCommand(JoinPath(commandsPath, f.fileName)));
        assert f in files;
      }
    }
  }
}
