/**
 * The one-shot completion check: whatever the host does at its waits, it runs at most once and only with live
 * authority.
 */
module VerificationCheck {
  import opened Basics

  type Command = string
  /** A shell's whole identity. */
  type Shell = string

  datatype Verdict = Verdict(allowed: bool, ask: bool)
  type Policy = (Command, Shell) -> Verdict

  datatype Mode = Disabled | Automatic | Fixed(command: Command)
  datatype Resolution = Resolved(binding: string, mode: Mode) | Invalid

  /** What the host says now. Everything in it may change at any wait. */
  datatype World = World(aborted: bool, current: bool, trusted: bool, directoryAllowed: bool, resolution: Resolution,
    policy: Option<Policy>)

  datatype Admitted = Ready(command: Command) | NotApplicable
  datatype ExecResult = StillRunning | NotStarted | Unknown | TimedOut | Exited(code: Option<int>) | Threw

  datatype Reason = DisabledByTeam | ConfigurationInvalid | NotApplicableHere | PolicyStale | ApprovalRequired
    | PolicyBlocked | SpawnFailed
  datatype Outcome = NotRun(reason: Reason) | Passed(command: Command) | Failed(command: Command)
    | OutcomeUnknown(command: Command)

  datatype Receipt = Receipt(key: Key, consumed: bool, singleUse: bool)
  /** What an approval is bound to, with the check's own folder, binding and request. */
  datatype Key = Key(command: Command, shell: Shell)

  /** What a run goes through, with what the host answered, and what its receipts go through. */
  datatype Event =
    | Confirmed(world: World)                        // nothing refuses the run
    | Admission(answer: Admitted)                    // a reading of the applicability of the command
    | Prepared(ok: bool, shell: Shell)
    | GateReturned(ok: bool, byApproval: bool)
    | Refreshed(ok: bool)                            // a reading of the configuration
    | Approved(key: Key, singleUse: bool, world: World)
    | Consumed(key: Key, singleUse: bool, world: World)
    | Executed(command: Command, shell: Shell, world: World, receipt: Option<Receipt>)
    | Ended(result: ExecResult)

  function RefusalIn(w: World, bound: Resolution): Option<Reason> {
    if w.aborted || !w.current then Some(PolicyStale)
    else if !w.trusted || !w.directoryAllowed then Some(PolicyBlocked)
    else if bound.Invalid? || w.resolution.Invalid? || bound.binding != w.resolution.binding then Some(PolicyStale)
    else if w.policy == None then Some(PolicyBlocked)
    else None
  }

  /**
   * The request is live, the workspace trusted, the folder allowed, the policy still the bound one, and there are
   * command rules.
   */
  predicate Authority(w: World, bound: Resolution) {
    && !w.aborted && w.current && w.trusted && w.directoryAllowed
    && bound.Resolved? && w.resolution.Resolved? && w.resolution.binding == bound.binding && w.policy.Some?
  }

  lemma NoRefusalIsAuthority(w: World, bound: Resolution)
    ensures RefusalIn(w, bound) == None <==> Authority(w, bound)
  {
  }

  /**
   * At this start, the command was allowed outright, or an ask was answered by a consumed receipt for this very
   * command and shell.
   */
  predicate Authorized(e: Event, bound: Resolution)
    requires e.Executed?
  {
    && Authority(e.world, bound)
    && var verdict := e.world.policy.value(e.command, e.shell);
       (verdict.allowed
           || (verdict.ask && e.receipt.Some? && e.receipt.value.consumed
               && e.receipt.value.key == Key(e.command, e.shell)))
  }

  datatype Kind = Execution | Approval | Consumption

  predicate Is(e: Event, kind: Kind) {
    match kind
    case Execution => e.Executed?
    case Approval => e.Approved?
    case Consumption => e.Consumed?
  }

  function Count(log: seq<Event>, kind: Kind): nat {
    if log == [] then 0 else Count(log[..|log| - 1], kind) + (if Is(log[|log| - 1], kind) then 1 else 0)
  }

  lemma CountNext(log: seq<Event>, e: Event, kind: Kind)
    ensures Count(log + [e], kind) == Count(log, kind) + (if Is(e, kind) then 1 else 0)
  {
    assert (log + [e])[..|log|] == log;
  }

  /** The receipt in force after this history: the last approval's, consumed once it was used. */
  function ReceiptOf(log: seq<Event>): Option<Receipt> {
    if log == [] then None
    else
      match log[|log| - 1]
      case Approved(key, singleUse, _) => Some(Receipt(key, false, singleUse))
      case Consumed(key, singleUse, _) => Some(Receipt(key, true, singleUse))
      case _ => ReceiptOf(log[..|log| - 1])
  }

  /** The history without what the receipts went through. */
  function Steps(log: seq<Event>): seq<Event> {
    if log == [] then []
    else
      var e := log[|log| - 1];
      Steps(log[..|log| - 1]) + (if e.Approved? || e.Consumed? then [] else [e])
  }

  lemma StepsNext(log: seq<Event>, e: Event)
    ensures Steps(log + [e]) == Steps(log) + (if e.Approved? || e.Consumed? then [] else [e])
  {
    assert (log + [e])[..|log|] == log;
  }

  /**
   * This event was right at this point of the history: an approval came while a gate, or what follows it, was under
   * way, and a consumption while the second gate was, or the reading behind it.
   */
  predicate Fine(before: seq<Event>, e: Event, bound: Resolution) {
    && (e.Confirmed? ==> Authority(e.world, bound))
    && (e.Executed? ==> Authorized(e, bound) && e.receipt == ReceiptOf(before))
    && (e.Approved? ==> Authority(e.world, bound) && 5 <= |Steps(before)| <= 12)
    && (e.Consumed? ==>
          && Authority(e.world, bound) && 11 <= |Steps(before)| <= 12
          && ReceiptOf(before) == Some(Receipt(e.key, false, e.singleUse)))
  }

  predicate AllFine(log: seq<Event>, bound: Resolution) {
    log == [] || (AllFine(log[..|log| - 1], bound) && Fine(log[..|log| - 1], log[|log| - 1], bound))
  }

  /** Every event was right, the receipt is the history's, and the command started at most once, in the one run. */
  predicate Sound(log: seq<Event>, receipt: Option<Receipt>, used: bool, bound: Resolution) {
    && AllFine(log, bound) && receipt == ReceiptOf(log) && Count(log, Execution) <= (if used then 1 else 0)
    && (used || Steps(log) == [])
  }

  lemma FineNext(log: seq<Event>, e: Event, bound: Resolution)
    requires AllFine(log, bound) && Fine(log, e, bound)
    ensures AllFine(log + [e], bound)
    ensures !e.Approved? && !e.Consumed? ==> ReceiptOf(log + [e]) == ReceiptOf(log)
    ensures e.Approved? ==> ReceiptOf(log + [e]) == Some(Receipt(e.key, false, e.singleUse))
    ensures e.Consumed? ==> ReceiptOf(log + [e]) == Some(Receipt(e.key, true, e.singleUse))
  {
    hide Fine;
    assert (log + [e])[..|log|] == log;
  }

  /** An approval or a consumption: the history goes on with the receipt it makes. */
  lemma Takes(log: seq<Event>, receipt: Option<Receipt>, used: bool, bound: Resolution, e: Event)
    requires Sound(log, receipt, used, bound) && Fine(log, e, bound) && (e.Approved? || e.Consumed?)
    ensures Sound(log + [e], Some(Receipt(e.key, e.Consumed?, e.singleUse)), used, bound)
    ensures Since(log, log + [e])
  {
    hide Fine, AllFine, ReceiptOf, Count, Steps;
    FineNext(log, e, bound);
    CountNext(log, e, Execution);
    StepsNext(log, e);
    assert Steps(log) + [] == Steps(log);
  }

  /** Any other event; an execution only if there was none. */
  lemma Goes(log: seq<Event>, e: Event, receipt: Option<Receipt>, bound: Resolution)
    requires Sound(log, receipt, true, bound) && !e.Approved? && !e.Consumed?
    requires e.Executed? ==> Count(log, Execution) == 0 && Authorized(e, bound) && e.receipt == receipt
    requires e.Confirmed? ==> Authority(e.world, bound)
    ensures Sound(log + [e], receipt, true, bound)
    ensures Count(log + [e], Execution) == Count(log, Execution) + (if e.Executed? then 1 else 0)
    ensures Steps(log + [e]) == Steps(log) + [e]
  {
    hide Authorized, AllFine, ReceiptOf, Count, Steps, Authority;
    FineNext(log, e, bound);
    CountNext(log, e, Execution);
    StepsNext(log, e);
  }

  /** What the closures handed to the gates may still do while the check waits. */
  datatype Gates = Closed | Given(key: Key, asks: bool, consumes: bool)

  /** They are handed out with the first gate, and the one that consumes with the second. */
  predicate InTime(gates: Gates, steps: seq<Event>) {
    && (gates.Given? ==> 5 <= |steps| <= 12)
    && (gates.Given? && gates.consumes ==> 11 <= |steps|)
  }

  class Check {
    var world: World
    var used: bool
    var receipt: Option<Receipt>
    /** Approvals asked for and not yet answered, each with whether it is for one use. */
    var prompts: seq<bool>
    const bound: Resolution
    ghost var log: seq<Event>

    constructor (bound: Resolution, world: World)
      ensures Valid() && !used && log == [] && this.bound == bound
    {
      this.bound, this.world := bound, world;
      used, receipt, prompts, log := false, None, [], [];
    }

    ghost predicate Valid()
      reads this
    {
      Sound(log, receipt, used, bound)
    }

    function Refusal(): (r: Option<Reason>)
      reads this
      ensures r == None <==> Authority(world, bound)
    {
      NoRefusalIsAuthority(world, bound);
      RefusalIn(world, bound)
    }

    /** The synchronous start of a run: the first one consumes the check, every other one ends here. */
    method Begin() returns (first: bool)
      requires Valid()
      modifies this`used
      ensures Valid() && used && first == !old(used)
    {
      first := !used;
      used := true;
    }

    /** The first half of the prompt given to the first gate: up to its question. */
    method StartPrompt(key: Key, asked: Command, shell: Shell, singleUse: bool) returns (withdrawn: bool)
      requires Valid()
      modifies this`prompts
      ensures Valid() && withdrawn == !(Authority(world, bound) && asked == key.command && shell == key.shell)
      ensures prompts == if withdrawn then old(prompts) else old(prompts) + [singleUse]
    {
      if Refusal().Some? || asked != key.command || shell != key.shell { return true; }
      prompts := prompts + [singleUse];
      withdrawn := false;
    }

    /** The second half, once a person answered: a yes makes a new receipt if authority still holds. */
    method AnswerPrompt(i: nat, key: Key, allow: bool) returns (allowed: bool)
      requires Valid() && i < |prompts| && 5 <= |Steps(log)| <= 12
      modifies this`prompts, this`receipt, this`log
      ensures Valid() && Since(old(log), log)
      ensures allowed <==> allow && Authority(world, bound)
      ensures receipt == if allowed then Some(Receipt(key, false, old(prompts)[i])) else old(receipt)
      ensures log == old(log) + if allowed then [Approved(key, old(prompts)[i], world)] else []
      ensures prompts == old(prompts)[..i] + old(prompts)[i + 1..]
    {
      hide Sound, Count, Steps;
      var singleUse := prompts[i];
      prompts := prompts[..i] + prompts[i + 1..];
      allowed := Refusal() == None && allow;
      if allowed {
        ghost var e := Approved(key, singleUse, world);
        Takes(log, receipt, used, bound, e);
        log := log + [e];
        receipt := Some(Receipt(key, false, singleUse));
      }
    }

    /** The approver given to the second gate: it answers from the receipt, once. */
    method ConsumeReceipt(key: Key, asked: Command, shell: Shell, singleUse: bool) returns (allow: bool)
      requires Valid() && 11 <= |Steps(log)| <= 12
      modifies this`receipt, this`log
      ensures Valid() && Since(old(log), log)
      ensures allow <==>
                && Authority(world, bound) && asked == key.command && shell == key.shell
                && old(receipt) == Some(Receipt(key, false, singleUse))
      ensures receipt == if allow then Some(Receipt(key, true, singleUse)) else old(receipt)
      ensures log == old(log) + if allow then [Consumed(key, singleUse, world)] else []
    {
      hide Count;
      allow := Refusal() == None && receipt.Some? && !receipt.value.consumed && receipt.value.key == key
               && asked == key.command && shell == key.shell && receipt.value.singleUse == singleUse;
      if allow {
        ghost var e := Consumed(key, singleUse, world);
        Takes(log, receipt, used, bound, e);
        log := log + [e];
        receipt := Some(receipt.value.(consumed := true));
      }
    }

    /**
     * A wait: the world may become any other, other runs may be tried, and the closures handed out so far may be called
     * by the gates, with any arguments and in any order.
     */
    method Wait(gates: Gates)
      requires Valid() && used && InTime(gates, Steps(log))
      modifies this`world, this`used, this`receipt, this`prompts, this`log
      ensures Valid() && used && Since(old(log), log)
    {
      hide Sound, Since, Steps;
      SinceItself(log);
      var happenings: nat := *;
      while happenings > 0
        invariant Valid() && used && Since(old(log), log)
        decreases happenings
      {
        ghost var before := log;
        SinceItself(log);
        SinceSteps(old(log), log);
        var what: int, asked: Command, shell: Shell, singleUse: bool, i: nat := *, *, *, *, *;
        if what == 0 {
          world := *;
        } else if what == 1 {
          var first := Begin();
          assert !first;
        } else if what == 2 && gates.Given? && gates.asks {
          var _ := StartPrompt(gates.key, asked, shell, singleUse);
        } else if what == 3 && gates.Given? && i < |prompts| {
          var _ := AnswerPrompt(i, gates.key, singleUse);
        } else if what == 4 && gates.Given? && gates.consumes {
          var _ := ConsumeReceipt(gates.key, asked, shell, singleUse);
        }
        SinceChains(old(log), before, log);
        happenings := happenings - 1;
      }
    }

    method Log(e: Event)
      requires Valid() && used && !e.Approved? && !e.Consumed?
      requires e.Executed? ==> Count(log, Execution) == 0 && Authorized(e, bound) && e.receipt == receipt
      requires e.Confirmed? ==> Authority(e.world, bound)
      modifies this`log
      ensures Valid() && log == old(log) + [e] && Steps(log) == Steps(old(log)) + [e]
      ensures Count(log, Execution) == Count(old(log), Execution) + (if e.Executed? then 1 else 0)
    {
      Goes(log, e, receipt, bound);
      log := log + [e];
    }

    /** A look at the host as it is now. */
    method Confirm() returns (refusal: Option<Reason>)
      requires Valid() && used
      modifies this`log
      ensures Valid() && old(log) <= log && Count(log, Execution) == Count(old(log), Execution)
      ensures refusal == RefusalIn(world, bound)
      ensures Steps(log) == Steps(old(log)) + if refusal == None then [Confirmed(world)] else []
    {
      hide Sound, Count, Steps;
      refusal := Refusal();
      if refusal == None { Log(Confirmed(world)); }
    }

    /** One reading of the applicability of the command, at the check's own folder. */
    method Admit(gates: Gates) returns (admitted: Admitted)
      requires Valid() && used && InTime(gates, Steps(log))
      modifies this`world, this`used, this`receipt, this`prompts, this`log
      ensures Valid() && used && old(log) <= log && Count(log, Execution) == Count(old(log), Execution)
      ensures Steps(log) == Steps(old(log)) + [Admission(admitted)]
    {
      hide Sound, Count, Steps;
      Wait(gates);
      SinceSteps(old(log), log);
      admitted := *;
      Log(Admission(admitted));
    }

    /** The shell the command would run in. Preparing it is host code too. */
    method Prepare() returns (ok: bool, shell: Shell)
      requires Valid() && used
      modifies this`world, this`log
      ensures Valid() && used && old(log) <= log && Count(log, Execution) == Count(old(log), Execution)
      ensures Steps(log) == Steps(old(log)) + [Prepared(ok, shell)]
    {
      hide Sound, Count, Steps;
      ok, shell := *, *;
      world := *;
      Log(Prepared(ok, shell));
    }

    /** A gate: it may call the closures it was given, and answers as it likes. */
    method Gate(gates: Gates) returns (ok: bool, byApproval: bool)
      requires Valid() && used && InTime(gates, Steps(log))
      modifies this`world, this`used, this`receipt, this`prompts, this`log
      ensures Valid() && used && old(log) <= log && Count(log, Execution) == Count(old(log), Execution)
      ensures Steps(log) == Steps(old(log)) + [GateReturned(ok, byApproval)]
    {
      hide Sound, Count, Steps;
      Wait(gates);
      SinceSteps(old(log), log);
      ok, byApproval := *, *;
      Log(GateReturned(ok, byApproval));
    }

    /** A new reading of the team's configuration, which may fail. */
    method Refresh(gates: Gates) returns (ok: bool)
      requires Valid() && used && InTime(gates, Steps(log))
      modifies this`world, this`used, this`receipt, this`prompts, this`log
      ensures Valid() && used && old(log) <= log && Count(log, Execution) == Count(old(log), Execution)
      ensures Steps(log) == Steps(old(log)) + [Refreshed(ok)]
    {
      hide Sound, Count, Steps;
      Wait(gates);
      SinceSteps(old(log), log);
      ok := *;
      Log(Refreshed(ok));
    }

    /** From the last checks to the start of the command there is no wait. */
    method Execute(key: Key) returns (outcome: Outcome)
      requires Valid() && used && Count(log, Execution) == 0
      requires Story(Steps(log), key, 13)
      modifies this
      ensures Valid() && used && old(log) <= log
      ensures Steps(log) != Steps(old(log)) <==> MayStart(old(world), bound, old(receipt), key)
      ensures Steps(log) == Steps(old(log)) ==>
                && outcome.NotRun? && log == old(log) && world == old(world)
                && Explained(Steps(log), world, bound, outcome.reason)
      ensures Steps(log) != Steps(old(log)) ==>
              && Story(Steps(log), key, 15)
              && match Steps(log)[14].result
                 case Exited(Some(code)) =>
                   outcome == if code == 0 then Passed(key.command) else Failed(key.command)
                 case TimedOut => outcome == Failed(key.command)
                 case NotStarted => outcome == NotRun(SpawnFailed)
                 case _ => outcome == OutcomeUnknown(key.command)
    {
      hide Sound, Count, Steps;
      var refusal := Refusal();
      if refusal.Some? { return NotRun(refusal.value); }
      var verdict := world.policy.value(key.command, key.shell);
      if !verdict.allowed && !(verdict.ask && receipt.Some? && receipt.value.consumed && receipt.value.key == key) {
        return NotRun(if verdict.ask then ApprovalRequired else PolicyBlocked);
      }
      Log(Executed(key.command, key.shell, world, receipt));
      var result: ExecResult := *;
      Log(Ended(result));
      ghost var ended := log;
      match result {
        case StillRunning =>
          Wait(Closed);
          SinceSteps(ended, log);
          outcome := OutcomeUnknown(key.command);
        case NotStarted => outcome := NotRun(SpawnFailed);
        case Unknown => outcome := OutcomeUnknown(key.command);
        case TimedOut => outcome := Failed(key.command);
        case Exited(code) =>
          outcome := if code == None then OutcomeUnknown(key.command)
                     else if code.value == 0 then Passed(key.command) else Failed(key.command);
        case Threw => outcome := OutcomeUnknown(key.command);
      }
    }

    /** The first half: up to a confirmed answer of the first gate. None means the run ended with `outcome`. */
    method Ask() returns (key: Option<Key>, outcome: Outcome, gates: Gates)
      requires Valid() && used && Count(log, Execution) == 0 && Steps(log) == []
      modifies this`world, this`used, this`receipt, this`prompts, this`log
      ensures Valid() && used && Count(log, Execution) == 0 && old(log) <= log
      ensures key == None ==> outcome.NotRun? && Explained(Steps(log), world, bound, outcome.reason)
      ensures key.Some? ==> Story(Steps(log), key.value, 7) && bound.Resolved? && bound.mode != Disabled
      ensures key.Some? ==> gates.Given? && gates.key == key.value && !gates.consumes
    {
      hide Sound, Count, Steps;
      key, gates := None, Closed;
      if bound.Invalid? { outcome := NotRun(ConfigurationInvalid); return; }
      if bound.mode == Disabled { outcome := NotRun(DisabledByTeam); return; }
      var refusal := Confirm();
      if refusal.Some? { outcome := NotRun(refusal.value); return; }
      var admitted := Admit(Closed);
      if admitted.NotApplicable? { outcome := NotRun(NotApplicableHere); return; }
      var command := admitted.command;
      refusal := Confirm();
      if refusal.Some? { outcome := NotRun(refusal.value); return; }
      var prepared, shell := Prepare();
      if !prepared { outcome := NotRun(SpawnFailed); return; }
      refusal := Confirm();
      if refusal.Some? { outcome := NotRun(refusal.value); return; }
      var approver: bool := *;
      gates := Given(Key(command, shell), approver, false);
      var ok, byApproval := Gate(gates);
      if !ok {
        outcome := NotRun(if byApproval then ApprovalRequired else PolicyBlocked);
        return;
      }
      refusal := Confirm();
      if refusal.Some? { outcome := NotRun(refusal.value); return; }
      key := Some(Key(command, shell));
      outcome := NotRun(PolicyStale);
    }

    /** Everything asked again after the first gate; None means the same command is admitted once more. */
    method Readmit(key: Key, gates: Gates) returns (ended: Option<Outcome>)
      requires Valid() && used && Count(log, Execution) == 0
      requires Story(Steps(log), key, 7) && gates.Given? && gates.key == key && !gates.consumes
      modifies this`world, this`used, this`receipt, this`prompts, this`log
      ensures Valid() && used && old(log) <= log && Count(log, Execution) == 0
      ensures ended.Some? ==> ended.value.NotRun? && Explained(Steps(log), world, bound, ended.value.reason)
      ensures ended == None ==> Story(Steps(log), key, 11)
    {
      hide Sound, Count, Steps;
      var read := Refresh(gates);
      if !read { return Some(NotRun(ConfigurationInvalid)); }
      var refusal := Confirm();
      if refusal.Some? { return Some(NotRun(refusal.value)); }
      var admitted := Admit(gates);
      refusal := Refusal();
      if refusal.Some? { return Some(NotRun(refusal.value)); }
      if admitted.NotApplicable? || admitted.command != key.command { return Some(NotRun(NotApplicableHere)); }
      Log(Confirmed(world));
      ended := None;
    }

    /** The second half: everything asked again, the second gate, then the command. */
    method Recheck(key: Key, gates: Gates) returns (outcome: Outcome)
      requires Valid() && used && Count(log, Execution) == 0
      requires Story(Steps(log), key, 7) && gates.Given? && gates.key == key && !gates.consumes
      modifies this
      ensures Valid() && used && old(log) <= log
      ensures Says(Steps(log), key, world, bound, outcome)
    {
      hide Sound, Count, Steps;
      var ended := Readmit(key, gates);
      if ended.Some? { return ended.value; }
      var both := Given(key, gates.asks, true);
      var ok, byApproval := Gate(both);
      if !ok { return NotRun(if byApproval then ApprovalRequired else PolicyBlocked); }
      var read := Refresh(both);
      if !read { return NotRun(ConfigurationInvalid); }
      outcome := Execute(key);
    }

    /** One call of `run`. */
    method Run() returns (outcome: Outcome)
      requires Valid()
      modifies this
      ensures Valid() && used && old(log) <= log
      ensures old(used) ==> outcome == NotRun(PolicyStale) && log == old(log)
      ensures !old(used) ==> exists key :: Says(Steps(log), key, world, bound, outcome)
    {
      hide Sound, Story, Mark, Explained, Steps;
      if !used { NotYetStarted(log, receipt, bound); }
      var first := Begin();
      if !first { return NotRun(PolicyStale); }
      var key, gates;
      key, outcome, gates := Ask();
      if key == None {
        EndsEarly(Steps(log), world, bound, outcome);
        return;
      }
      outcome := Recheck(key.value, gates);
    }
  }

  /** Any number of runs, one after another; runs tried while one waits are part of its waits. */
  method RunAll(check: Check, runs: nat) returns (outcomes: seq<Outcome>)
    requires check.Valid() && !check.used
    modifies check
    ensures check.Valid() && |outcomes| == runs
    ensures Count(check.log, Execution) <= 1
    ensures forall k :: 0 < k < runs ==> outcomes[k] == NotRun(PolicyStale)
  {
    outcomes := [];
    while |outcomes| < runs
      invariant check.Valid() && |outcomes| <= runs
      invariant outcomes != [] ==> check.used
      invariant forall k :: 0 < k < |outcomes| ==> outcomes[k] == NotRun(PolicyStale)
    {
      var outcome := check.Run();
      outcomes := outcomes + [outcome];
    }
  }

  /**
   * Position `c` consumed, for this command and shell, the receipt that position `a` approved: both with authority, in
   * this order, and with no other approval or consumption from there up to position `n`.
   */
  predicate ConsumedApproval(log: seq<Event>, bound: Resolution, a: nat, c: nat, n: nat, key: Key) {
    && a < c < n <= |log|
    && log[a].Approved? && log[a].key == key && Authority(log[a].world, bound)
    && log[c].Consumed? && log[c].key == key && Authority(log[c].world, bound) && log[c].singleUse == log[a].singleUse
    && forall k :: a < k < n && k != c ==> !log[k].Approved? && !log[k].Consumed?
  }

  /** A receipt in force goes back to its approval; a consumed one also to its one use. */
  ghost predicate Stands(log: seq<Event>, receipt: Option<Receipt>, bound: Resolution) {
    receipt.Some? ==>
      if receipt.value.consumed then exists a, c :: ConsumedApproval(log, bound, a, c, |log|, receipt.value.key)
      else exists a :: UnusedApproval(log, bound, a, receipt.value)
  }

  predicate UnusedApproval(log: seq<Event>, bound: Resolution, a: nat, receipt: Receipt) {
    && a < |log|
    && log[a].Approved? && log[a].key == receipt.key && log[a].singleUse == receipt.singleUse
    && Authority(log[a].world, bound)
    && forall k :: a < k < |log| ==> !log[k].Approved? && !log[k].Consumed?
  }

  lemma {:induction false} ReceiptStands(log: seq<Event>, bound: Resolution)
    requires AllFine(log, bound)
    ensures Stands(log, ReceiptOf(log), bound)
  {
    hide Authority, Authorized;
    if log != [] {
      var init, e := log[..|log| - 1], log[|log| - 1];
      ReceiptStands(init, bound);
      if e.Approved? {
        assert UnusedApproval(log, bound, |init|, Receipt(e.key, false, e.singleUse));
      } else if ReceiptOf(init).Some? {
        var r := ReceiptOf(init).value;
        if e.Consumed? {
          var a :| UnusedApproval(init, bound, a, r);
          assert ConsumedApproval(log, bound, a, |init|, |log|, e.key);
        } else if r.consumed {
          var a, c :| ConsumedApproval(init, bound, a, c, |init|, r.key);
          assert ConsumedApproval(log, bound, a, c, |log|, r.key);
        } else {
          var a :| UnusedApproval(init, bound, a, r);
          assert UnusedApproval(log, bound, a, r);
        }
      }
    }
  }

  lemma {:induction false} UsesBounded(log: seq<Event>, bound: Resolution)
    requires AllFine(log, bound)
    ensures Count(log, Consumption) + (if ReceiptOf(log).Some? && !ReceiptOf(log).value.consumed then 1 else 0)
         <= Count(log, Approval)
  {
    hide Authority, Authorized;
    if log != [] { UsesBounded(log[..|log| - 1], bound); }
  }

  lemma {:induction false} EachFine(log: seq<Event>, bound: Resolution, i: nat)
    requires AllFine(log, bound) && i < |log|
    ensures AllFine(log[..i], bound) && Fine(log[..i], log[i], bound)
    decreases |log|
  {
    hide Fine;
    if i < |log| - 1 {
      EachFine(log[..|log| - 1], bound, i);
      assert log[..|log| - 1][..i] == log[..i];
    }
  }

  /**
   * What every check's history shows: the command started at most once, with live authority; and unless it was allowed
   * outright, an approval for this command and shell and its own one consumption stand before the start, in this order.
   */
  lemma StartsAreAuthorized(log: seq<Event>, receipt: Option<Receipt>, used: bool, bound: Resolution, i: nat)
    requires Sound(log, receipt, used, bound) && i < |log| && log[i].Executed?
    ensures Count(log, Execution) <= 1 && Count(log, Consumption) <= Count(log, Approval)
    ensures Authority(log[i].world, bound)
    ensures var verdict := log[i].world.policy.value(log[i].command, log[i].shell);
      verdict.allowed ||
      (verdict.ask && exists a, c :: ConsumedApproval(log, bound, a, c, i, Key(log[i].command, log[i].shell)))
  {
    hide Count, AllFine, ReceiptOf;
    UsesBounded(log, bound);
    EachFine(log, bound, i);
    ReceiptStands(log[..i], bound);
    var e := log[i];
    assert Authority(e.world, bound);
    if !e.world.policy.value(e.command, e.shell).allowed {
      var a, c :| ConsumedApproval(log[..i], bound, a, c, i, Key(e.command, e.shell));
      assert ConsumedApproval(log, bound, a, c, i, Key(e.command, e.shell));
    }
  }

  lemma NotYetStarted(log: seq<Event>, receipt: Option<Receipt>, bound: Resolution)
    requires Sound(log, receipt, false, bound)
    ensures Count(log, Execution) == 0 && Steps(log) == []
  {
  }

  /** Only approvals and consumptions were added. */
  ghost predicate Since(before: seq<Event>, after: seq<Event>) {
    before <= after && Count(before, Execution) == Count(after, Execution) && Steps(before) == Steps(after)
  }

  lemma SinceItself(log: seq<Event>)
    ensures Since(log, log)
  {
  }

  lemma SinceSteps(before: seq<Event>, after: seq<Event>)
    requires Since(before, after)
    ensures Steps(before) == Steps(after) && before <= after && Count(before, Execution) == Count(after, Execution)
  {
  }

  lemma SinceChains(a: seq<Event>, b: seq<Event>, c: seq<Event>)
    requires Since(a, b) && Since(b, c)
    ensures Since(a, c)
  {
    hide Count, Steps;
  }

  // ---------- what a run goes through ----------

  /** The first `n` steps of a run that starts the command: every answer a yes, with looks at the host in between. */
  predicate Story(steps: seq<Event>, key: Key, n: nat) {
    |steps| == n && forall k :: 0 <= k < n ==> Mark(steps[k], k, key)
  }

  predicate Mark(e: Event, k: nat, key: Key) {
    if k in {0, 2, 4, 6, 8, 10} then e.Confirmed?
    else if k in {1, 9} then e == Admission(Ready(key.command))
    else if k == 3 then e == Prepared(true, key.shell)
    else if k in {5, 11} then e.GateReturned? && e.ok
    else if k in {7, 12} then e == Refreshed(true)
    else if k == 13 then e.Executed? && e.command == key.command && e.shell == key.shell
    else k == 14 && e.Ended?
  }

  /** The last check allows the start: with authority, outright or by the consumed receipt of an ask. */
  predicate MayStart(w: World, bound: Resolution, receipt: Option<Receipt>, key: Key) {
    && Authority(w, bound)
    && var verdict := w.policy.value(key.command, key.shell);
       verdict.allowed || (verdict.ask && receipt.Some? && receipt.value.consumed && receipt.value.key == key)
  }

  /**
   * Why a run ended without its command running, from its steps and the host at its end: nothing was there to run, an
   * answer was no, the host now refuses, or the command rules do not allow it.
   */
  predicate Explained(steps: seq<Event>, w: World, bound: Resolution, reason: Reason) {
    if steps == [] then
      if bound.Invalid? then reason == ConfigurationInvalid
      else if bound.mode == Disabled then reason == DisabledByTeam
      else RefusalIn(w, bound) == Some(reason)
    else
      match steps[|steps| - 1]
      case Admission(answer) =>
        if |steps| == 2 && answer == NotApplicable then reason == NotApplicableHere
        else if RefusalIn(w, bound).Some? then reason == RefusalIn(w, bound).value
        else |steps| == 10 && reason == NotApplicableHere && steps[1].Admission? && steps[1].answer != answer
      case Prepared(false, _) => reason == SpawnFailed
      case GateReturned(false, byApproval) => reason == if byApproval then ApprovalRequired else PolicyBlocked
      case Refreshed(false) => reason == ConfigurationInvalid
      case Ended(result) => result == NotStarted && reason == SpawnFailed
      case _ =>
        if RefusalIn(w, bound).Some? then reason == RefusalIn(w, bound).value
        else
          && |steps| == 13 && steps[1].Admission? && steps[1].answer.Ready? && steps[3].Prepared?
          && var verdict := w.policy.value(steps[1].answer.command, steps[3].shell);
             !verdict.allowed && reason == if verdict.ask then ApprovalRequired else PolicyBlocked
  }

  /** What the first run says of itself: why it did not run, or the result behind all of its steps. */
  predicate Says(steps: seq<Event>, key: Key, w: World, bound: Resolution, outcome: Outcome) {
    match outcome
    case NotRun(reason) => Explained(steps, w, bound, reason)
    case Passed(command) =>
      Story(steps, key, 15) && command == key.command && steps[14].result == Exited(Some(0))
    case Failed(command) =>
      && Story(steps, key, 15) && command == key.command
      && (steps[14].result == TimedOut
          || (steps[14].result.Exited? && steps[14].result.code.Some? && steps[14].result.code != Some(0)))
    case OutcomeUnknown(command) =>
      && Story(steps, key, 15) && command == key.command
      && steps[14].result in {StillRunning, Unknown, Threw, Exited(None)}
  }

  lemma EndsEarly(steps: seq<Event>, w: World, bound: Resolution, outcome: Outcome)
    requires outcome.NotRun? && Explained(steps, w, bound, outcome.reason)
    ensures Says(steps, Key("", ""), w, bound, outcome)
  {
  }

  /** A refusal names what is stale exactly when the request is over, or all but the configuration is there. */
  lemma RefusalReasonIs(w: World, bound: Resolution)
    requires !Authority(w, bound)
    ensures RefusalIn(w, bound) == Some(if
        || w.aborted || !w.current
        || (w.trusted && w.directoryAllowed
            && !(bound.Resolved? && w.resolution.Resolved? && bound.binding == w.resolution.binding))
      then PolicyStale else PolicyBlocked)
  {
  }

  /** Approvals come with the first gate or later, consumptions with the second, and the start behind all else. */
  lemma ReceiptsInTime(log: seq<Event>, receipt: Option<Receipt>, used: bool, bound: Resolution, i: nat)
    requires Sound(log, receipt, used, bound) && i < |log|
    ensures log[i].Approved? ==> 5 <= |Steps(log[..i])| <= 12
    ensures log[i].Consumed? ==> 11 <= |Steps(log[..i])| <= 12
  {
    hide AllFine, Steps;
    EachFine(log, bound, i);
  }
}
