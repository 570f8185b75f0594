/**
 * Ready-time reconciliation of remote command registrations against the local
 * registry: which remote commands get edited, with what, what is logged, and
 * what the remote registrations look like once the edits are applied.
 */
module Reconcile {
  import opened Discord
  import opened Logging
  import opened Registry

  /**
   * A remote command that must be edited: a chat-input command with a local
   * counterpart of the same name whose normalised definition differs from it.
   */
  predicate Drifted(registry: CommandMap, c: RemoteCommand) {
    && c.kind == ChatInput
    && c.definition.name in registry
    && c.definition != registry[c.definition.name].data
  }

  /** No remote command of the list needs an edit. */
  predicate InSync(registry: CommandMap, commands: seq<RemoteCommand>) {
    forall c :: c in commands ==> !Drifted(registry, c)
  }

  /** The edit issued while visiting one remote command, if any; it carries the local `toJSON()`. */
  function CommandEdits(registry: CommandMap, c: RemoteCommand): seq<Edit> {
    if Drifted(registry, c) then [Edit(c, registry[c.definition.name].data)] else []
  }

  /** The edits one pass over `commands` issues, in visiting order. */
  function PlanEdits(registry: CommandMap, commands: seq<RemoteCommand>): (edits: seq<Edit>)
    ensures |edits| <= |commands|
  {
    if commands == [] then []
    else PlanEdits(registry, commands[..|commands| - 1]) + CommandEdits(registry, commands[|commands| - 1])
  }

  /** The entries logged while visiting one remote command. */
  function CommandLog(registry: CommandMap, c: RemoteCommand): seq<LogEvent> {
    [LogEvent(Debug, Checking(c))]
      + if c.kind != ChatInput then []
        else if c.definition.name !in registry then [LogEvent(Warn, UnhandledRegistration(c))]
        else if c.definition == registry[c.definition.name].data then []
        else [ LogEvent(Info, Synchronizing(c)),
               LogEvent(Debug, LocalDefinition(registry[c.definition.name].data)),
               LogEvent(Debug, RemoteDefinition(c)) ]
  }

  /** The entries logged by one pass over `commands`, in visiting order. */
  function PassLog(registry: CommandMap, commands: seq<RemoteCommand>): seq<LogEvent> {
    if commands == [] then []
    else PassLog(registry, commands[..|commands| - 1]) + CommandLog(registry, commands[|commands| - 1])
  }

  /**
   * The pass edits exactly the drifted remote commands, each with its local
   * definition: nothing else (another type, no local handler, already equal)
   * is ever edited.
   */
  lemma {:induction false} PlanEditsExact(registry: CommandMap, commands: seq<RemoteCommand>, e: Edit)
    ensures e in PlanEdits(registry, commands) <==>
      exists c :: c in commands && Drifted(registry, c) && e == Edit(c, registry[c.definition.name].data)
    decreases |commands|
  {
    if commands != [] {
      var init, last := commands[..|commands| - 1], commands[|commands| - 1];
      assert commands == init + [last];
      PlanEditsExact(registry, init, e);
      if e in PlanEdits(registry, commands) && e !in PlanEdits(registry, init) {
        assert last in commands;
      } else if e in PlanEdits(registry, init) {
        var c :| c in init && Drifted(registry, c) && e == Edit(c, registry[c.definition.name].data);
        assert c in commands;
      }
    }
  }

  /** Idempotence: a pass issues no edit exactly when the remote commands are in sync. */
  lemma {:induction false} PlanEditsEmptyIffInSync(registry: CommandMap, commands: seq<RemoteCommand>)
    ensures PlanEdits(registry, commands) == [] <==> InSync(registry, commands)
  {
    var plan := PlanEdits(registry, commands);
    if plan != [] {
      PlanEditsExact(registry, commands, plan[0]);
    } else {
      forall c | c in commands
        ensures !Drifted(registry, c)
      {
        PlanEditsExact(registry, commands, Edit(c, if c.definition.name in registry then registry[c.definition.name].data else c.definition));
      }
    }
  }

  /**
   * One drifted remote command among commands that all match their local
   * definitions leads to exactly one edit, carrying the local definition.
   */
  lemma {:induction false} SingleDriftSingleEdit(registry: CommandMap, commands: seq<RemoteCommand>, k: nat)
    requires k < |commands| && Drifted(registry, commands[k])
    requires forall j :: 0 <= j < |commands| && j != k ==> !Drifted(registry, commands[j])
    ensures PlanEdits(registry, commands) == [Edit(commands[k], registry[commands[k].definition.name].data)]
  {
    var n := |commands|;
    var init := commands[..n - 1];
    if k == n - 1 {
      assert PlanEdits(registry, init) == [] by {
        PlanEditsEmptyIffInSync(registry, init);
      }
    } else {
      SingleDriftSingleEdit(registry, init, k);
    }
  }

  /**
   * No remote command is edited twice in one pass: with distinct remote ids,
   * the edits of a pass target pairwise distinct ids.
   */
  lemma {:induction false} PlanEditsDistinctTargets(registry: CommandMap, commands: seq<RemoteCommand>)
    requires DistinctIds(commands)
    ensures forall i, j :: 0 <= i < j < |PlanEdits(registry, commands)| ==>
      PlanEdits(registry, commands)[i].target.id != PlanEdits(registry, commands)[j].target.id
    decreases |commands|
  {
    if commands != [] {
      var n := |commands|;
      var init, last := commands[..n - 1], commands[n - 1];
      PlanEditsDistinctTargets(registry, init);
      var prior := PlanEdits(registry, init);
      forall e | e in prior
        ensures e.target.id != last.id
      {
        PlanEditsExact(registry, init, e);
        var c :| c in init && Drifted(registry, c) && e == Edit(c, registry[c.definition.name].data);
        var k :| 0 <= k < n - 1 && init[k] == c;
        assert commands[k] == c && commands[n - 1] == last;
      }
      var plan := PlanEdits(registry, commands);
      assert plan == prior + CommandEdits(registry, last);
      forall i, j | 0 <= i < j < |plan|
        ensures plan[i].target.id != plan[j].target.id
      {
        if j >= |prior| {
          assert plan[j].target == last && plan[i] == prior[i] && prior[i] in prior;
        }
      }
    }
  }

  /** What the remote service makes of a command when an edit for its id arrives. */
  function ApplyEdit(c: RemoteCommand, e: Edit): RemoteCommand {
    if e.target.id == c.id then c.(definition := e.payload) else c
  }

  /** A remote command after all `edits` have been applied in order. */
  function ApplyEdits(c: RemoteCommand, edits: seq<Edit>): RemoteCommand
    decreases |edits|
  {
    if edits == [] then c else ApplyEdits(ApplyEdit(c, edits[0]), edits[1..])
  }

  /** The remote command list after the service has applied `edits`. */
  function AfterEdits(commands: seq<RemoteCommand>, edits: seq<Edit>): seq<RemoteCommand> {
    seq(|commands|, i requires 0 <= i < |commands| => ApplyEdits(commands[i], edits))
  }

  /** Remote command ids are unique within one fetched list. */
  predicate DistinctIds(commands: seq<RemoteCommand>) {
    forall i, j :: 0 <= i < j < |commands| ==> commands[i].id != commands[j].id
  }

  /** When every edit for `c`'s id carries `p`, applying them leaves `c` with `p` if there was one. */
  lemma {:induction false} ApplyEditsUniform(c: RemoteCommand, edits: seq<Edit>, p: CommandDefinition)
    requires forall e :: e in edits && e.target.id == c.id ==> e.payload == p
    ensures ApplyEdits(c, edits) ==
      if exists e :: e in edits && e.target.id == c.id then c.(definition := p) else c
    decreases |edits|
  {
    if edits != [] {
      var c1 := ApplyEdit(c, edits[0]);
      assert forall e :: e in edits[1..] ==> e in edits;
      ApplyEditsUniform(c1, edits[1..], p);
      if edits[0].target.id == c.id {
        assert edits[0] in edits;
        if exists e :: e in edits[1..] && e.target.id == c.id {
          assert c1.(definition := p) == c.(definition := p);
        }
      } else {
        assert forall e :: e in edits ==> e == edits[0] || e in edits[1..];
      }
    }
  }

  /**
   * Convergence: once the service applies the edits of one pass, every
   * drifted command holds its local definition, every other command is
   * untouched, and a second pass finds nothing to edit.
   */
  lemma ReconcileConverges(registry: CommandMap, commands: seq<RemoteCommand>)
    requires Keyed(registry) && DistinctIds(commands)
    ensures var after := AfterEdits(commands, PlanEdits(registry, commands));
      && |after| == |commands|
      && (forall i :: 0 <= i < |commands| ==>
            after[i] == if Drifted(registry, commands[i])
                        then commands[i].(definition := registry[commands[i].definition.name].data)
                        else commands[i])
      && PlanEdits(registry, after) == []
  {
    var plan := PlanEdits(registry, commands);
    var after := AfterEdits(commands, plan);
    forall i | 0 <= i < |commands|
      ensures after[i] == if Drifted(registry, commands[i])
                          then commands[i].(definition := registry[commands[i].definition.name].data)
                          else commands[i]
      ensures !Drifted(registry, after[i])
    {
      var c := commands[i];
      var p := if c.definition.name in registry then registry[c.definition.name].data else c.definition;
      forall e | e in plan && e.target.id == c.id
        ensures e.payload == p && e.target == c
      {
        PlanEditsExact(registry, commands, e);
        var d :| d in commands && Drifted(registry, d) && e == Edit(d, registry[d.definition.name].data);
        var j :| 0 <= j < |commands| && commands[j] == d;
        assert j == i;
      }
      ApplyEditsUniform(c, plan, p);
      if Drifted(registry, c) {
        PlanEditsExact(registry, commands, Edit(c, p));
        assert Edit(c, p) in plan;
      } else if exists e :: e in plan && e.target.id == c.id {
        var e :| e in plan && e.target.id == c.id;
        PlanEditsExact(registry, commands, e);
        assert false;
      }
    }
    PlanEditsEmptyIffInSync(registry, after);
  }
}
