/** A per-agent ceiling over the workspace policy: a narrower mode and a selection of its templates. */
module AgentCommandPolicy {
  import opened Basics
  import opened CommandText
  import opened CommandShell
  import opened CommandPolicy

  datatype Narrowing = Narrowing(mode: Mode, allowedCommands: seq<string>)

  function NarrowerMode(global: Mode, requested: Mode): Mode {
    if Rank(requested) <= Rank(global) then requested else global
  }

  /** The selected entries that the workspace allows in this grammar. */
  function Selected(entries: seq<string>, ceiling: set<string>): (r: seq<string>)
    ensures forall e :: e in r <==> e in entries && Lower(Trim(e)) in ceiling
  {
    if entries == [] then []
    else (if Lower(Trim(entries[0])) in ceiling then [entries[0]] else []) + Selected(entries[1..], ceiling)
  }

  function NarrowedPolicy(global: Policy, narrowing: Narrowing, g: Grammar, tables: Tables): Policy {
    Policy(NarrowerMode(global.mode, narrowing.mode),
           NormalizeTemplates(Selected(narrowing.allowedCommands, AllowlistFor(global, g, tables))), [])
  }

  function AgentCheck(global: Policy, narrowing: Option<Narrowing>, command: string, shell: Shell,
      tables: Tables): Verdict
  {
    var v := Check(global, command, shell, tables);
    if v.dangerous || narrowing == None || (!v.allowed && !v.ask) then v
    else
      var narrowed := Check(NarrowedPolicy(global, narrowing.value, shell.grammar, tables), command, shell, tables);
      if narrowed.allowed then v
      else Verdict(false, narrowed.ask, narrowed.unread, false, false)
  }

  /** What a narrowing may match silently is a part of what the workspace may, in the same grammar. */
  lemma NarrowedAllowlistIsPart(global: Policy, narrowing: Narrowing, g: Grammar, tables: Tables)
    ensures AllowlistFor(NarrowedPolicy(global, narrowing, g, tables), g, tables) <= AllowlistFor(global, g, tables)
  {
    hide Trim, Lower;
    var ceiling := AllowlistFor(global, g, tables);
    var policy := NarrowedPolicy(global, narrowing, g, tables);
    forall t | t in AllowlistFor(policy, g, tables) ensures t in ceiling {
      assert t in policy.configured;
      var e :| e in Selected(narrowing.allowedCommands, ceiling) && Lower(Trim(e)) == t;
    }
  }

  /** What the narrowed policy allows, the workspace policy allows. */
  lemma NarrowedIsBelowGlobal(global: Policy, narrowing: Narrowing, command: string, shell: Shell, tables: Tables)
    ensures Check(NarrowedPolicy(global, narrowing, shell.grammar, tables), command, shell, tables).allowed
        ==> Check(global, command, shell, tables).allowed
  {
    hide Check;
    var narrowed := NarrowedPolicy(global, narrowing, shell.grammar, tables);
    NarrowedAllowlistIsPart(global, narrowing, shell.grammar, tables);
    if Check(narrowed, command, shell, tables).allowed {
      CheckIsMonotone(narrowed, global, command, shell, tables);
    }
  }

  /**
   * Narrowing never widens: an agent runs a command exactly when the narrowed policy allows it, and then the
   * workspace policy does too; a workspace denial that is no prompt stays a denial that is no prompt; and a
   * recognised destructive command keeps the workspace verdict.
   */
  lemma NarrowingNeverWidens(global: Policy, narrowing: Option<Narrowing>, command: string, shell: Shell,
      tables: Tables)
    ensures var agent := AgentCheck(global, narrowing, command, shell, tables);
      var v := Check(global, command, shell, tables);
      && (narrowing == None ==> agent == v)
      && (narrowing.Some? ==>
            (agent.allowed <==>
                Check(NarrowedPolicy(global, narrowing.value, shell.grammar, tables), command, shell, tables).allowed))
      && (agent.allowed ==> v.allowed)
      && (!v.allowed && !v.ask ==> !agent.allowed && !agent.ask)
      && (v.dangerous ==> agent == v)
  {
    hide Check, NarrowedPolicy;
    if narrowing.Some? {
      NarrowedIsBelowGlobal(global, narrowing.value, command, shell, tables);
      DangerIsNeverAllowed(global, NarrowedPolicy(global, narrowing.value, shell.grammar, tables), command, shell,
          tables);
    }
  }

  lemma DangerIsNeverAllowed(global: Policy, other: Policy, command: string, shell: Shell, tables: Tables)
    ensures Check(global, command, shell, tables).dangerous ==>
      !Check(global, command, shell, tables).allowed && !Check(other, command, shell, tables).allowed
  {
  }

  /** A narrower mode or fewer selected templates leave an agent at most as much as before. */
  lemma NarrowingIsMonotone(global: Policy, small: Narrowing, large: Narrowing, command: string, shell: Shell,
      tables: Tables)
    requires Rank(small.mode) <= Rank(large.mode)
    requires forall e :: e in small.allowedCommands ==> e in large.allowedCommands
    requires AgentCheck(global, Some(small), command, shell, tables).allowed
    ensures AgentCheck(global, Some(large), command, shell, tables).allowed
  {
    hide Check, AgentCheck;
    var g := shell.grammar;
    var a, b := NarrowedPolicy(global, small, g, tables), NarrowedPolicy(global, large, g, tables);
    NarrowingNeverWidens(global, Some(small), command, shell, tables);
    NarrowingNeverWidens(global, Some(large), command, shell, tables);
    forall t | t in AllowlistFor(a, g, tables) ensures t in AllowlistFor(b, g, tables) {
      var e :| e in Selected(small.allowedCommands, AllowlistFor(global, g, tables)) && Lower(Trim(e)) == t;
      assert e in Selected(large.allowedCommands, AllowlistFor(global, g, tables));
    }
    CheckIsMonotone(a, b, command, shell, tables);
  }

  /** The first mode permits no more than the second. */
  predicate NoWider(a: Mode, b: Mode) { a == b || a == Off || b == All || (a == Allowlist && b == Ask) }

  lemma NarrowerModeIs(global: Mode, requested: Mode)
    ensures var m := NarrowerMode(global, requested);
      (m == global || m == requested) && NoWider(m, global) && NoWider(m, requested)
  {
  }

  /**
   * The verdict on a narrowed agent's command, where the workspace does not refuse it outright and sees no danger: it
   * is that of the narrower of the two modes, with what the agent's selection leaves of the allowlist.
   */
  lemma NarrowedVerdictIs(global: Policy, narrowing: Narrowing, command: string, shell: Shell, tables: Tables)
    requires var v := Check(global, command, shell, tables); (v.allowed || v.ask) && !v.dangerous
    ensures var agent := AgentCheck(global, Some(narrowing), command, shell, tables);
      var policy := NarrowedPolicy(global, narrowing, shell.grammar, tables);
      var m, text := NarrowerMode(global.mode, narrowing.mode), Trim(command);
      && policy.mode == m
      && (agent.allowed <==>
            m == All || (m in {Allowlist, Ask} && IsLiteral(text, shell, tables)
                         && SilentlyAllowed(policy, text, shell, tables)))
      && (agent.ask <==> m == Ask && !agent.allowed)
      && !agent.dangerous && !agent.disabled
  {
    hide Trim, SilentlyAllowed, Check, IsLiteral, IsDangerous;
    var policy := NarrowedPolicy(global, narrowing, shell.grammar, tables);
    VerdictIs(global, command, shell, tables);
    VerdictIs(policy, command, shell, tables);
    NarrowedIsBelowGlobal(global, narrowing, command, shell, tables);
  }

  /** An agent narrowed to off runs nothing and is asked nothing; one narrowed to the allowlist is never asked. */
  lemma NarrowedModeHolds(global: Policy, narrowing: Narrowing, command: string, shell: Shell, tables: Tables)
    requires !Check(global, command, shell, tables).dangerous
    ensures var agent := AgentCheck(global, Some(narrowing), command, shell, tables);
      && (narrowing.mode == Off ==> !agent.allowed && !agent.ask)
      && (narrowing.mode == Allowlist ==> !agent.ask)
  {
    hide Check, NarrowedPolicy, SilentlyAllowed, IsLiteral;
    var v := Check(global, command, shell, tables);
    NarrowerModeIs(global.mode, narrowing.mode);
    if v.allowed || v.ask { NarrowedVerdictIs(global, narrowing, command, shell, tables); }
  }

  /**
   * What an agent narrowed to the allowlist, or to asking, runs without a prompt: every piece of the command is, or
   * continues behind a space, an entry selected for this agent that the workspace allows in the same grammar.
   */
  lemma NarrowedRunsSelected(global: Policy, narrowing: Narrowing, command: string, shell: Shell, tables: Tables)
    requires narrowing.mode in {Allowlist, Ask}
    requires AgentCheck(global, Some(narrowing), command, shell, tables).allowed
    ensures var pieces := AutoAllowSegments(Trim(command), shell);
      pieces.Some? && forall k :: 0 <= k < |pieces.value| ==>
        IsSelected(pieces.value[k], narrowing.allowedCommands, AllowlistFor(global, shell.grammar, tables))
  {
    hide Trim, Check, IsLiteral, IsDangerous, AutoAllowSegments, Lower, AllowlistFor;
    var g := shell.grammar;
    NarrowingNeverWidens(global, Some(narrowing), command, shell, tables);
    DangerIsNeverAllowed(global, global, command, shell, tables);
    NarrowedVerdictIs(global, narrowing, command, shell, tables);
    NarrowerModeIs(global.mode, narrowing.mode);
    var ceiling := AllowlistFor(global, g, tables);
    var policy := NarrowedPolicy(global, narrowing, g, tables);
    var pieces := AutoAllowSegments(Trim(command), shell).value;
    forall k | 0 <= k < |pieces| ensures IsSelected(pieces[k], narrowing.allowedCommands, ceiling) {
      assert IsAllowlisted(pieces[k], AllowlistFor(policy, g, tables));
      var t :| t in AllowlistFor(policy, g, tables) && Matches(pieces[k], t);
      OnlyConfigured(policy, g, tables, t);
      var e :| e in Selected(narrowing.allowedCommands, ceiling) && Lower(Trim(e)) == t;
      assert e in narrowing.allowedCommands && Lower(Trim(e)) in ceiling && Matches(pieces[k], Lower(Trim(e)));
    }
  }

  ghost predicate IsSelected(piece: string, entries: seq<string>, ceiling: set<string>) {
    exists e :: e in entries && Lower(Trim(e)) in ceiling && Matches(piece, Lower(Trim(e)))
  }

  lemma OnlyConfigured(policy: Policy, g: Grammar, tables: Tables, t: string)
    requires policy.project == [] && t in AllowlistFor(policy, g, tables)
    ensures t in policy.configured
  {
  }
}
