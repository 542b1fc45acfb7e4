/** One agent's foreground lane, as the steps its code takes between awaits, in any interleaving. */
module ExecutionLane {
  import opened Basics

  datatype LaneState = Open | Disposing | Closed
  datatype Phase = Queued | Preparing | AwaitingApproval | Running | Stopping
  /** Where an entry's own call stands: still waiting its turn, holding a ticket, or turned away. */
  datatype Stage = Waiting | Granted | TurnedAway

  datatype Entry = Entry(generation: nat, phase: Phase, aborted: bool, released: bool, stage: Stage)

  /**
   * Every entry that ever took a place, in order; an entry is in the lane until it is released. Each pending reset
   * waits for the entries it found running. `grants` is the order in which tickets were handed out.
   */
  datatype Lane = Lane(state: LaneState, generation: nat, entries: seq<Entry>, resets: seq<set<nat>>, grants: seq<nat>)

  datatype Step =
    | Enter
    | Wake(i: nat)
    | SetPhase(i: nat, phase: Phase)
    | Release(i: nat)
    | BeginReset
    | EndReset(r: nat)

  const NEW := Lane(Open, 0, [], [], [])

  predicate AllReleased(entries: seq<Entry>, n: nat)
    requires n <= |entries|
  {
    forall i :: 0 <= i < n ==> entries[i].released
  }

  /** When a step can happen: a waiting entry wakes once it is aborted or everything before it has settled. */
  predicate Enabled(s: Lane, step: Step) {
    match step
    case Enter => true
    case Wake(i) => i < |s.entries| && s.entries[i].stage == Waiting
        && (s.entries[i].aborted || AllReleased(s.entries, i))
    case SetPhase(i, phase) => i < |s.entries| && s.entries[i].stage == Granted && phase != Queued
    case Release(i) => i < |s.entries| && s.entries[i].stage == Granted
    case BeginReset => true
    case EndReset(r) => r < |s.resets| && forall i :: i in s.resets[r] ==> i < |s.entries| && s.entries[i].released
  }

  predicate Crossed(e: Entry) { e.phase == Running || e.phase == Stopping }

  /** The entries a reset finds in execution, and waits for. */
  function InExecution(entries: seq<Entry>): set<nat> {
    set i | 0 <= i < |entries| && !entries[i].released && Crossed(entries[i])
  }

  /** A reset aborts every entry still in the lane, and releases those not in execution. */
  function Swept(e: Entry): Entry {
    if e.released then e else e.(aborted := true, released := !Crossed(e))
  }

  function Apply(s: Lane, step: Step): Lane
    requires Enabled(s, step)
  {
    match step
    case Enter =>
      if s.state != Open then s else s.(entries := s.entries + [Entry(s.generation, Queued, false, false, Waiting)])
    case Wake(i) =>
      var e := s.entries[i];
      if e.aborted || e.generation != s.generation || s.state != Open then
        s.(entries := s.entries[i := e.(stage := TurnedAway, released := true)])
      else
        s.(entries := s.entries[i := e.(stage := Granted, phase := Preparing)], grants := s.grants + [i])
    case SetPhase(i, phase) =>
      if s.entries[i].released then s else s.(entries := s.entries[i := s.entries[i].(phase := phase)])
    case Release(i) =>
      s.(entries := s.entries[i := s.entries[i].(released := true)])
    case BeginReset =>
      if s.state == Closed then s
      else
        s.(state := Disposing, generation := s.generation + 1, resets := s.resets + [InExecution(s.entries)],
           entries := seq(|s.entries|, i requires 0 <= i < |s.entries| => Swept(s.entries[i])))
    case EndReset(r) =>
      s.(state := Closed, resets := s.resets[..r] + s.resets[r + 1..])
  }

  // ---------- what every reachable state keeps ----------

  predicate Holds(e: Entry) { e.stage == Granted && !e.released }

  /** An entry that got its ticket did so after everything before it had left for good. */
  predicate EarlierLeft(s: Lane) {
    forall j :: 0 <= j < |s.entries| && s.entries[j].stage == Granted ==> AllReleased(s.entries, j)
  }

  predicate LeftBeforeTurn(s: Lane) {
    forall i :: 0 <= i < |s.entries| && s.entries[i].released && s.entries[i].stage == Waiting ==> s.entries[i].aborted
  }

  predicate TurnedAwayLeft(s: Lane) {
    forall i :: 0 <= i < |s.entries| && s.entries[i].stage == TurnedAway ==> s.entries[i].released
  }

  predicate TicketsMove(s: Lane) {
    forall i :: 0 <= i < |s.entries| && s.entries[i].stage != Granted ==> s.entries[i].phase == Queued
  }

  predicate InOrder(s: Lane) {
    && (forall k :: 0 <= k < |s.grants| ==> s.grants[k] < |s.entries| && s.entries[s.grants[k]].stage == Granted)
    && (forall k, l :: 0 <= k < l < |s.grants| ==> s.grants[k] < s.grants[l])
  }

  predicate OpenIsFresh(s: Lane) {
    s.state == Open ==> s.resets == [] && forall i :: 0 <= i < |s.entries| ==>
        !s.entries[i].aborted && s.entries[i].generation == s.generation
  }

  /** Whatever is still in the lane is waited for by every pending reset. */
  predicate WaitedFor(s: Lane, reset: set<nat>) {
    forall i :: 0 <= i < |s.entries| && !s.entries[i].released ==> i in reset
  }

  predicate ResetsCover(s: Lane) { forall r :: 0 <= r < |s.resets| ==> WaitedFor(s, s.resets[r]) }

  predicate ClosedIsEmpty(s: Lane) { s.state == Closed ==> AllReleased(s.entries, |s.entries|) }

  predicate Safe(s: Lane) {
    EarlierLeft(s) && LeftBeforeTurn(s) && TurnedAwayLeft(s) && InOrder(s) && OpenIsFresh(s) && ResetsCover(s)
        && ClosedIsEmpty(s) && TicketsMove(s)
  }

  lemma NewIsSafe()
    ensures Safe(NEW)
  {
  }

  lemma EntryStaysSafe(s: Lane, i: nat, e: Entry)
    requires Safe(s) && i < |s.entries| && (s.entries[i].released ==> e.released)
        && (s.state == Open ==> e.aborted == s.entries[i].aborted)
    requires e.generation == s.entries[i].generation && e.stage == s.entries[i].stage && e.stage == Granted
    ensures Safe(s.(entries := s.entries[i := e]))
  {
  }

  lemma WakeStaysSafe(s: Lane, i: nat)
    requires Safe(s) && Enabled(s, Wake(i))
    ensures Safe(Apply(s, Wake(i)))
  {
  }

  lemma ResetStaysSafe(s: Lane)
    requires Safe(s)
    ensures Safe(Apply(s, BeginReset))
  {
    var t := Apply(s, BeginReset);
    assert forall i :: 0 <= i < |s.entries| && s.entries[i].released ==> t.entries[i].released;
  }

  lemma StepStaysSafe(s: Lane, step: Step)
    requires Safe(s) && Enabled(s, step)
    ensures Safe(Apply(s, step))
  {
    match step
    case Enter =>
    case Wake(i) => WakeStaysSafe(s, i);
    case SetPhase(i, phase) => EntryStaysSafe(s, i, s.entries[i].(phase := phase));
    case Release(i) => EntryStaysSafe(s, i, s.entries[i].(released := true));
    case BeginReset => ResetStaysSafe(s);
    case EndReset(r) =>
  }

  // ---------- whole runs ----------

  predicate Runs(s: Lane, steps: seq<Step>)
    decreases |steps|
  {
    steps != [] ==> Enabled(s, steps[0]) && Runs(Apply(s, steps[0]), steps[1..])
  }

  function After(s: Lane, steps: seq<Step>): Lane
    requires Runs(s, steps)
    decreases |steps|
  {
    if steps == [] then s else After(Apply(s, steps[0]), steps[1..])
  }

  lemma {:induction false} RunStaysSafe(s: Lane, steps: seq<Step>)
    requires Safe(s) && Runs(s, steps)
    ensures Safe(After(s, steps))
    decreases |steps|
  {
    hide Safe, Apply, Enabled;
    if steps != [] {
      StepStaysSafe(s, steps[0]);
      RunStaysSafe(Apply(s, steps[0]), steps[1..]);
    }
  }

  /** In every run of a new lane: at most one ticket is held, and tickets are handed out in the order of entry. */
  lemma OneTicketInOrder(steps: seq<Step>)
    requires Runs(NEW, steps)
    ensures var s := After(NEW, steps);
      && (forall i, j ::
          0 <= i < |s.entries| && 0 <= j < |s.entries| && Holds(s.entries[i]) && Holds(s.entries[j]) ==> i == j)
      && (forall k, l :: 0 <= k < l < |s.grants| ==> s.grants[k] < s.grants[l])
  {
    NewIsSafe();
    RunStaysSafe(NEW, steps);
    var s := After(NEW, steps);
    forall i, j | 0 <= i < j < |s.entries|
      ensures !(Holds(s.entries[i]) && Holds(s.entries[j]))
    {
      if Holds(s.entries[j]) { assert AllReleased(s.entries, j); }
    }
  }

  /** From the moment a reset begins, nothing enters and no ticket is handed out, whatever happens next. */
  lemma NoTicketAfterReset(s: Lane, steps: seq<Step>)
    requires Runs(Apply(s, BeginReset), steps)
    ensures var t := After(Apply(s, BeginReset), steps);
      t.grants == s.grants && |t.entries| == |s.entries| && t.state != Open
  {
    NotOpenStaysSo(Apply(s, BeginReset), steps);
  }

  /**
   * What a reset does to each entry, by its phase: one that is running or stopping keeps its place, is told to stop and
   * is waited for; every other one is out at once.
   */
  lemma ResetSparesExecution(s: Lane, i: nat)
    requires s.state != Closed && i < |s.entries| && !s.entries[i].released
    ensures var t := Apply(s, BeginReset);
      && |t.entries| == |s.entries| && t.entries[i].aborted && t.entries[i].phase == s.entries[i].phase
      && |t.resets| == |s.resets| + 1
      && (s.entries[i].phase in {Running, Stopping} ==> !t.entries[i].released && i in t.resets[|s.resets|])
      && (s.entries[i].phase in {Queued, Preparing, AwaitingApproval} ==>
            t.entries[i].released && i !in t.resets[|s.resets|])
  {
  }

  /** An entry in execution leaves it by its own steps alone: its release, or going back to a phase before it. */
  predicate LeavesExecution(step: Step, i: nat) {
    step == Release(i) || step == SetPhase(i, Preparing) || step == SetPhase(i, AwaitingApproval)
  }

  lemma {:induction false} StaysInExecution(s: Lane, i: nat, steps: seq<Step>)
    requires Runs(s, steps) && i < |s.entries| && s.entries[i].stage == Granted
    requires !s.entries[i].released && s.entries[i].phase in {Running, Stopping}
    requires forall k :: 0 <= k < |steps| ==> !LeavesExecution(steps[k], i)
    ensures var e := After(s, steps).entries; i < |e| && !e[i].released
    decreases |steps|
  {
    if steps != [] {
      assert !LeavesExecution(steps[0], i);
      StaysInExecution(Apply(s, steps[0]), i, steps[1..]);
    }
  }

  /**
   * A reset waits for what runs: after any history, a reset that finds an entry running or stopping can end, as any
   * other reset then can, only when that entry was released, or went back to a phase before execution.
   */
  lemma ResetWaitsForExecution(before: seq<Step>, i: nat, between: seq<Step>, r: nat)
    requires Runs(NEW, before) && After(NEW, before).state != Closed
    requires i < |After(NEW, before).entries| && !After(NEW, before).entries[i].released
    requires After(NEW, before).entries[i].phase in {Running, Stopping}
    requires Runs(Apply(After(NEW, before), BeginReset), between)
    requires Enabled(After(Apply(After(NEW, before), BeginReset), between), EndReset(r))
    ensures exists k :: 0 <= k < |between| && LeavesExecution(between[k], i)
  {
    var s := After(NEW, before);
    NewIsSafe();
    RunStaysSafe(NEW, before);
    ResetSparesExecution(s, i);
    StepStaysSafe(s, BeginReset);
    var t := Apply(s, BeginReset);
    RunStaysSafe(t, between);
    if forall k :: 0 <= k < |between| ==> !LeavesExecution(between[k], i) {
      StaysInExecution(t, i, between);
      WaitsForAll(After(t, between), r, i);
      assert false;
    }
  }

  lemma WaitsForAll(s: Lane, r: nat, i: nat)
    requires Safe(s) && Enabled(s, EndReset(r)) && i < |s.entries|
    ensures s.entries[i].released
  {
    assert WaitedFor(s, s.resets[r]);
  }

  /** An entry that was told to stop need not wait for those before it, and never gets a ticket. */
  lemma AbortedWakesAtOnce(s: Lane, i: nat)
    requires i < |s.entries| && s.entries[i].stage == Waiting && s.entries[i].aborted
    ensures Enabled(s, Wake(i))
    ensures var t := Apply(s, Wake(i));
      t.entries[i].stage == TurnedAway && t.entries[i].released && t.grants == s.grants
  {
  }

  lemma {:induction false} NotOpenStaysSo(s: Lane, steps: seq<Step>)
    requires s.state != Open && Runs(s, steps)
    ensures var t := After(s, steps);
      t.grants == s.grants && |t.entries| == |s.entries| && t.state != Open
    decreases |steps|
  {
    if steps != [] { NotOpenStaysSo(Apply(s, steps[0]), steps[1..]); }
  }

  /**
   * Entries found in execution by a reset are released before it ends; once the lane is closed nothing is in it, for
   * good.
   */
  lemma ResetEndsEmpty(before: seq<Step>, between: seq<Step>, r: nat, after: seq<Step>)
    requires Runs(NEW, before) && Runs(After(NEW, before), between)
        && Enabled(After(After(NEW, before), between), EndReset(r))
    requires Runs(Apply(After(After(NEW, before), between), EndReset(r)), after)
    ensures var s := After(Apply(After(After(NEW, before), between), EndReset(r)), after);
      s.state == Closed && AllReleased(s.entries, |s.entries|)
  {
    hide Apply, Enabled, Safe, AllReleased;
    NewIsSafe();
    RunStaysSafe(NEW, before);
    var s := After(NEW, before);
    RunStaysSafe(s, between);
    var t := After(s, between);
    StepStaysSafe(t, EndReset(r));
    var u := Apply(t, EndReset(r));
    EndCloses(t, r);
    StaysClosed(u, after);
    RunStaysSafe(u, after);
    SafeAndClosed(After(u, after));
  }

  lemma EndCloses(s: Lane, r: nat)
    requires Enabled(s, EndReset(r))
    ensures Apply(s, EndReset(r)).state == Closed
  {
  }

  lemma SafeAndClosed(s: Lane)
    requires Safe(s) && s.state == Closed
    ensures AllReleased(s.entries, |s.entries|)
  {
  }

  lemma {:induction false} StaysClosed(s: Lane, steps: seq<Step>)
    requires s.state == Closed && Runs(s, steps)
    ensures After(s, steps).state == Closed
    decreases |steps|
  {
    if steps != [] { StaysClosed(Apply(s, steps[0]), steps[1..]); }
  }

  /** An open lane never sticks: its first entry holds the ticket, or gets it when it wakes. */
  lemma NeverSticks(s: Lane)
    requires Safe(s) && s.state == Open && !AllReleased(s.entries, |s.entries|)
    ensures exists i :: 0 <= i < |s.entries| && AllReleased(s.entries, i) && !s.entries[i].released &&
              (Holds(s.entries[i]) || (Enabled(s, Wake(i)) && Holds(Apply(s, Wake(i)).entries[i])))
  {
    var i := FirstInLane(s.entries, 0);
    assert AllReleased(s.entries, i) && !s.entries[i].released;
    if !Holds(s.entries[i]) { assert Enabled(s, Wake(i)); }
  }

  function FirstInLane(entries: seq<Entry>, from: nat): (i: nat)
    requires from <= |entries| && AllReleased(entries, from) && !AllReleased(entries, |entries|)
    ensures i < |entries| && AllReleased(entries, i) && !entries[i].released
    decreases |entries| - from
  {
    if !entries[from].released then from else FirstInLane(entries, from + 1)
  }

  // ---------- the lane as the host runs it ----------

  class Foreground {
    var state: LaneState
    var generation: nat
    var entries: seq<Entry>
    var resets: seq<set<nat>>
    ghost var grants: seq<nat>

    ghost function Value(): Lane
      reads this
    {
      Lane(state, generation, entries, resets, grants)
    }

    constructor ()
      ensures Value() == NEW
    {
      state, generation, entries, resets, grants := Open, 0, [], [], [];
    }

    /** The part before the wait: a place in the lane, or None when the lane no longer takes any. */
    method Enter() returns (place: Option<nat>)
      modifies this
      ensures Value() == Apply(old(Value()), Step.Enter)
      ensures place == if old(state) == Open then Some(|old(entries)|) else None
    {
      if state != Open { return None; }
      place := Some(|entries|);
      entries := entries + [Entry(generation, Queued, false, false, Waiting)];
    }

    /** The part after the wait. */
    method Wake(i: nat) returns (granted: bool)
      requires Enabled(Value(), Step.Wake(i))
      modifies this
      ensures Value() == Apply(old(Value()), Step.Wake(i))
      ensures granted == Holds(entries[i])
      ensures old(state) != Open ==> !granted
    {
      var e := entries[i];
      if e.aborted || e.generation != generation || state != Open {
        entries := entries[i := e.(stage := TurnedAway, released := true)];
        return false;
      }
      entries := entries[i := e.(stage := Granted, phase := Preparing)];
      grants := grants + [i];
      granted := !e.released;
    }

    method SetPhase(i: nat, phase: Phase)
      requires Enabled(Value(), Step.SetPhase(i, phase))
      modifies this
      ensures Value() == Apply(old(Value()), Step.SetPhase(i, phase))
    {
      if !entries[i].released { entries := entries[i := entries[i].(phase := phase)]; }
    }

    method Release(i: nat)
      requires Enabled(Value(), Step.Release(i))
      modifies this
      ensures Value() == Apply(old(Value()), Step.Release(i))
    {
      if entries[i].released {
        assert entries[i := entries[i].(released := true)] == entries;
        return;
      }
      entries := entries[i := entries[i].(released := true)];
    }

    /** The reset up to its wait. */
    method BeginReset()
      modifies this
      ensures Value() == Apply(old(Value()), Step.BeginReset)
    {
      if state == Closed { return; }
      state := Disposing;
      generation := generation + 1;
      var running: set<nat> := {};
      var i := 0;
      while i < |entries|
        invariant 0 <= i <= |entries| == |old(entries)|
        invariant state == Disposing && generation == old(generation) + 1 && resets == old(resets)
            && grants == old(grants)
        invariant forall k :: 0 <= k < i ==> entries[k] == Swept(old(entries)[k])
        invariant forall k :: i <= k < |entries| ==> entries[k] == old(entries)[k]
        invariant running == set k | 0 <= k < i && !old(entries)[k].released && Crossed(old(entries)[k])
      {
        var e := entries[i];
        if !e.released {
          if Crossed(e) {
            entries := entries[i := e.(aborted := true)];
            running := running + {i};
          } else {
            entries := entries[i := e.(aborted := true, released := true)];
          }
        }
        i := i + 1;
      }
      resets := resets + [running];
      assert running == InExecution(old(entries));
      assert entries == Apply(old(Value()), Step.BeginReset).entries;
    }

    /** The reset after its wait. */
    method EndReset(r: nat)
      requires Enabled(Value(), Step.EndReset(r))
      modifies this
      ensures Value() == Apply(old(Value()), Step.EndReset(r))
    {
      state := Closed;
      resets := resets[..r] + resets[r + 1..];
    }
  }

  // ---------- one-shot starts ----------

  /** One use of a guarded command: which way it was started, and what the host's refusal said at that moment. */
  datatype Use = Execute(refused: bool) | StartBackground(refused: bool)
  datatype UseResult = Started | NotStarted

  /** A prepared command whose first use consumes it, started or refused. */
  class GuardedCommand {
    var used: bool
    ghost var starts: nat

    constructor ()
      ensures !used && starts == 0
    {
      used, starts := false, 0;
    }

    /** None lets the start go on. */
    method Consume(refused: bool) returns (refusal: bool)
      modifies this`used
      ensures used && refusal == (old(used) || refused)
    {
      if used { return true; }
      used := true;
      refusal := refused;
    }

    method Run(use: Use) returns (result: UseResult)
      modifies this
      ensures used
      ensures result == (if old(used) || use.refused then NotStarted else Started)
      ensures starts == old(starts) + (if result == Started then 1 else 0)
    {
      var refusal := Consume(use.refused);
      if refusal { return NotStarted; }
      starts := starts + 1;
      result := Started;
    }
  }

  /**
   * Over any calls of either kind, the inner command starts at most once: exactly when the first call was not
   * refused.
   */
  method UseAll(command: GuardedCommand, uses: seq<Use>) returns (results: seq<UseResult>)
    requires !command.used && command.starts == 0
    modifies command
    ensures |results| == |uses|
    ensures command.starts == if uses != [] && !uses[0].refused then 1 else 0
    ensures forall i :: 0 <= i < |uses| ==> (results[i] == Started <==> i == 0 && !uses[0].refused)
  {
    results := [];
    while |results| < |uses|
      invariant |results| <= |uses|
      invariant command.used == (results != [])
      invariant command.starts == if results != [] && !uses[0].refused then 1 else 0
      invariant forall i :: 0 <= i < |results| ==> (results[i] == Started <==> i == 0 && !uses[0].refused)
    {
      var result := command.Run(uses[|results|]);
      results := results + [result];
    }
  }

  /** A command guarded by its agent's lane never starts once a reset of that lane began. */
  method RunBesideLane(lane: Foreground, command: GuardedCommand) returns (result: UseResult)
    modifies command
    ensures result == Started ==> lane.state == Open && !old(command.used)
    ensures command.used
  {
    result := command.Run(Execute(lane.state != Open));
  }
}
