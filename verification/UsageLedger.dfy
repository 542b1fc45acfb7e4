/** What one Codex backend charges for its turns and compactions, from a thread's cumulative token totals. */
module UsageLedger {
  import opened Basics

  type Thread = string

  datatype Breakdown = Breakdown(input: nat, cached: nat, output: nat, reasoning: nat, total: nat)
  const ZERO := Breakdown(0, 0, 0, 0, 0)

  datatype Usage = Usage(input: nat, cached: nat, output: nat, reasoning: Option<nat>) {
    function Tokens(): nat { input + output }
  }

  function Minus(a: nat, b: nat): nat { if a > b then a - b else 0 }

  function Subtract(total: Breakdown, baseline: Breakdown): Breakdown {
    Breakdown(Minus(total.input, baseline.input), Minus(total.cached, baseline.cached),
        Minus(total.output, baseline.output),
              Minus(total.reasoning, baseline.reasoning), Minus(total.total, baseline.total))
  }

  function TurnUsage(delta: Breakdown): Usage {
    var separate := delta.reasoning > 0 && delta.total == delta.input + delta.output + delta.reasoning;
    var output := delta.output + (if separate then delta.reasoning else 0);
    Usage(delta.input, Min(delta.cached, delta.input), output,
        if delta.reasoning > 0 then Some(Min(delta.reasoning, output)) else None)
  }

  /**
   * The charge is the growth of the total exactly when that counts the reasoning tokens within the output, or beside
   * it.
   */
  lemma ChargeIsTotalIff(delta: Breakdown)
    ensures TurnUsage(delta).Tokens() == delta.total <==>
            delta.total == delta.input + delta.output || delta.total == delta.input + delta.output + delta.reasoning
    ensures TurnUsage(delta).cached <= TurnUsage(delta).input
    ensures TurnUsage(delta).reasoning.Some? ==> TurnUsage(delta).reasoning.value <= TurnUsage(delta).output
  {
  }

  /**
   * What a settled usage names, field by field: how much the input, the cached input and the output grew, the output
   * with the reasoning where that is counted beside it; and the growth of the reasoning, as a part of that output.
   */
  lemma TurnUsageIs(total: Breakdown, baseline: Breakdown, beside: bool)
    requires AtMost(baseline, total) && baseline.cached <= total.cached
    requires Uniform(baseline, beside) && Uniform(total, beside)
    ensures var u, grown := TurnUsage(Subtract(total, baseline)), total.reasoning - baseline.reasoning;
      && u.input == total.input - baseline.input
      && u.output == total.output - baseline.output + (if beside then grown else 0)
      && u.cached <= total.cached - baseline.cached && u.cached <= u.input
      && (u.cached == total.cached - baseline.cached || u.cached == u.input)
      && (grown == 0 <==> u.reasoning == None)
      && (grown > 0 ==> u.reasoning == Some(grown) || (u.reasoning == Some(u.output) && u.output < grown))
  {
  }

  // ---------- the ledger ----------

  /** What the turn under way has observed: `updates` counts the reports since it was last settled. */
  datatype Turn = Turn(thread: Option<Thread>, total: Option<Breakdown>, updates: nat, reset: bool,
    settled: Option<Usage>)
  const FRESH := Turn(None, None, 0, false, None)

  /** A compaction under way, with the last total its own turn reported. */
  datatype Compaction = Compaction(on: Thread, total: Option<Breakdown>)

  datatype Ledger = Ledger(
    thread: Option<Thread>, baselines: map<Thread, Breakdown>, unknown: set<Thread>, turn: Turn,
        compaction: Option<Compaction>)
  {
    function Baseline(t: Thread): Breakdown { if t in baselines then baselines[t] else ZERO }
    predicate Unknown(t: Thread) { t in unknown && t !in baselines }
    function Advanced(t: Thread, total: Breakdown): Ledger {
      this.(baselines := baselines[t := total], unknown := unknown - {t})
    }
  }

  /**
   * A compaction that the host stopped waiting for stays registered, so a turn may begin, report and end before it
   * does; events may come in any order.
   */
  datatype Event =
    | Begin                                                      // a turn starts
    | Report(thread: Option<Thread>, total: Option<Breakdown>)  // a cumulative total arrives, for a turn or late
    | Settle                                                     // the turn ends, or a completion is settled again
    | StartCompaction(on: Thread)
    | CompactionReport(seen: Option<Breakdown>)                  // a cumulative total of the compaction's own turn
    | EndCompaction                                              // its turn completes
    | DropCompaction                                             // it ends without its terminal event

  function ReportedThread(l: Ledger, thread: Option<Thread>): Option<Thread> {
    if thread == None || thread.value == "" then l.thread else thread
  }

  /** A report counts when it names a total of this backend's thread and of the thread the turn already reported on. */
  predicate Counts(l: Ledger, thread: Option<Thread>, total: Option<Breakdown>) {
    var t := ReportedThread(l, thread);
    && t.Some? && t.value != "" && total.Some?
    && (l.thread == None || l.thread.value == "" || t == l.thread)
    && (l.turn.thread == None || l.turn.thread == t)
  }

  function Observed(l: Ledger, t: Thread, total: Breakdown): Ledger {
    var lower := t in l.baselines && total.total < l.baselines[t].total;
    l.(baselines := if lower then l.baselines[t := total] else l.baselines,
       turn := Turn(Some(t), Some(total), l.turn.updates + 1, l.turn.reset || lower, l.turn.settled))
  }

  /** What settling charges, before it is remembered. */
  function SettledUsage(l: Ledger, t: Thread, total: Breakdown): Option<Usage> {
    var delta := Subtract(total, l.Baseline(t));
    if l.Unknown(t) then None
    else if delta.total > 0 then Some(TurnUsage(delta))
    else if l.turn.reset then Some(Usage(0, 0, 0, None))
    else None
  }

  function Settled(l: Ledger): Ledger {
    if l.turn.thread == None || l.turn.total == None || l.turn.updates == 0 then l
    else
      var t, total := l.turn.thread.value, l.turn.total.value;
      l.Advanced(t, total).(turn := l.turn.(updates := 0, settled := SettledUsage(l, t, total)))
  }

  function UsageOfCompaction(l: Ledger, t: Thread, total: Breakdown): Option<Usage> {
    var delta := Subtract(total, l.Baseline(t));
    if l.Unknown(t) || total.total < l.Baseline(t).total || delta.total == 0 then None else Some(TurnUsage(delta))
  }

  function Apply(l: Ledger, e: Event): Ledger {
    match e
    case Begin => l.(turn := FRESH)
    case Report(thread, total) =>
        if Counts(l, thread, total) then Observed(l, ReportedThread(l, thread).value, total.value) else l
    case Settle => Settled(l)
    case StartCompaction(on) => if l.compaction.Some? then l else l.(compaction := Some(Compaction(on, None)))
    case CompactionReport(seen) =>
      if l.compaction == None || seen == None then l
      else l.(compaction := Some(Compaction(l.compaction.value.on, seen)))
    case EndCompaction =>
      if l.compaction == None then l
      else if l.compaction.value.total == None then l.(compaction := None)
      else l.Advanced(l.compaction.value.on, l.compaction.value.total.value).(compaction := None)
    case DropCompaction => l.(compaction := None)
  }

  /** The total this event settles thread `t` at, if it settles it. */
  function Settles(l: Ledger, e: Event, t: Thread): Option<Breakdown> {
    match e
    case Settle => if l.turn.thread == Some(t) && l.turn.updates > 0 then l.turn.total else None
    case EndCompaction => if l.compaction.Some? && l.compaction.value.on == t then l.compaction.value.total else None
    case _ => None
  }

  /**
   * What this event newly charges for thread `t`. Settling again charges nothing: it repeats what was already
   * charged.
   */
  function Charge(l: Ledger, e: Event, t: Thread): nat {
    var total := Settles(l, e, t);
    if total == None then 0
    else
      var usage := if e.Settle? then SettledUsage(l, t, total.value) else UsageOfCompaction(l, t, total.value);
      if usage == None then 0 else usage.value.Tokens()
  }

  function After(l: Ledger, events: seq<Event>): Ledger
    decreases |events|
  {
    if events == [] then l else After(Apply(l, events[0]), events[1..])
  }

  function Charged(l: Ledger, events: seq<Event>, t: Thread): nat
    decreases |events|
  {
    if events == [] then 0 else Charge(l, events[0], t) + Charged(Apply(l, events[0]), events[1..], t)
  }

  /** Settling a completion twice charges it once, and repeats its figure. */
  lemma SettlingTwice(l: Ledger)
    ensures Settled(Settled(l)) == Settled(l) && forall t :: Charge(Settled(l), Settle, t) == 0
    ensures Settled(l).turn.settled == (if l.turn.thread.Some? && l.turn.total.Some? && l.turn.updates > 0
                                        then SettledUsage(l, l.turn.thread.value, l.turn.total.value)
                                            else l.turn.settled)
  {
  }

  /** Settling a turn remembers the usage of its growth, or that there was none after a reset, or nothing. */
  lemma SettledUsageIs(l: Ledger)
    requires l.turn.thread.Some? && l.turn.total.Some? && l.turn.updates > 0
    ensures var t, total := l.turn.thread.value, l.turn.total.value;
      var settled := Settled(l).turn.settled;
      && Settled(l).Baseline(t) == total && !Settled(l).Unknown(t) && Settled(l).turn.updates == 0
      && (l.Unknown(t) ==> settled == None)
      && (!l.Unknown(t) && total.total > l.Baseline(t).total ==>
            settled == Some(TurnUsage(Subtract(total, l.Baseline(t)))))
      && (!l.Unknown(t) && total.total <= l.Baseline(t).total ==>
            settled == if l.turn.reset then Some(Usage(0, 0, 0, None)) else None)
  {
  }

  // ---------- one thread over a run ----------

  /** The thread's newest observed total after this event, `cur` being the newest before it. */
  function Newest(l: Ledger, e: Event, t: Thread, cur: Breakdown): Breakdown {
    match e
    case Report(thread, total) =>
        if Counts(l, thread, total) && ReportedThread(l, thread) == Some(t) then total.value else cur
    case CompactionReport(seen) =>
        if l.compaction.Some? && l.compaction.value.on == t && seen.Some? then seen.value else cur
    case _ => cur
  }

  predicate AtMost(a: Breakdown, b: Breakdown) {
    a.input <= b.input && a.output <= b.output && a.reasoning <= b.reasoning && a.total <= b.total
  }

  predicate Ordered(a: Breakdown, b: Breakdown) { AtMost(a, b) || AtMost(b, a) }

  /** Totals count reasoning tokens within the output, or beside it, always the same way. */
  predicate Uniform(b: Breakdown, beside: bool) { b.total == b.input + b.output + (if beside then b.reasoning else 0) }

  /** The backend works on `t`. */
  predicate OnThread(l: Ledger, t: Thread) {
    t != "" && l.thread == Some(t) && (l.turn.thread.Some? ==> l.turn.thread.value == t)
  }

  lemma StaysOnThread(l: Ledger, e: Event, t: Thread)
    requires OnThread(l, t)
    ensures OnThread(Apply(l, e), t)
  {
  }

  /**
   * The totals of `t` that the ledger holds: its baseline, what the turn under way reported, and what the compaction
   * did.
   */
  function Held(l: Ledger, t: Thread): set<Breakdown> {
    {l.Baseline(t)}
    + (if l.turn.thread == Some(t) && l.turn.total.Some? then {l.turn.total.value} else {})
    + (if l.compaction.Some? && l.compaction.value.on == t
        && l.compaction.value.total.Some? then {l.compaction.value.total.value} else {})
  }

  /** They all come from one history that never fell, of which `cur` is the newest. */
  predicate Chained(l: Ledger, t: Thread, cur: Breakdown, beside: bool) {
    && Uniform(cur, beside)
    && (forall a :: a in Held(l, t) ==> AtMost(a, cur) && Uniform(a, beside))
    && (forall a, b :: a in Held(l, t) && b in Held(l, t) ==> Ordered(a, b))
  }

  lemma StaysChained(l: Ledger, e: Event, t: Thread, cur: Breakdown, beside: bool)
    requires OnThread(l, t) && Chained(l, t, cur, beside)
    requires AtMost(cur, Newest(l, e, t, cur)) && Uniform(Newest(l, e, t, cur), beside)
    ensures Chained(Apply(l, e), t, Newest(l, e, t, cur), beside)
  {
    hide Uniform, Held, Apply, Newest;
    var next := Newest(l, e, t, cur);
    HoldsNoMore(l, e, t, cur);
    assert forall a :: a in Held(l, t) ==> AtMost(a, next);
  }

  /** An event brings no totals but the newest one. */
  lemma HoldsNoMore(l: Ledger, e: Event, t: Thread, cur: Breakdown)
    requires OnThread(l, t)
    ensures forall a :: a in Held(Apply(l, e), t) ==> a in Held(l, t) || a == Newest(l, e, t, cur)
  {
  }

  /** Every observed total of the thread is at least the one before it, and counts reasoning the same way. */
  predicate Steady(l: Ledger, events: seq<Event>, t: Thread, cur: Breakdown, beside: bool)
    decreases |events|
  {
    events != [] ==>
      && AtMost(cur, Newest(l, events[0], t, cur)) && Uniform(Newest(l, events[0], t, cur), beside)
      && Steady(Apply(l, events[0]), events[1..], t, Newest(l, events[0], t, cur), beside)
  }

  /**
   * How far this event sets the thread's baseline back, by settling it at a total older than the one it was settled
   * at.
   */
  function SetBack(l: Ledger, e: Event, t: Thread): nat {
    if Settles(l, e, t) == None then 0 else Minus(l.Baseline(t).total, Settles(l, e, t).value.total)
  }

  function AllSetBack(l: Ledger, events: seq<Event>, t: Thread): nat
    decreases |events|
  {
    if events == [] then 0 else SetBack(l, events[0], t) + AllSetBack(Apply(l, events[0]), events[1..], t)
  }

  lemma DeltaIsGrowth(total: Breakdown, baseline: Breakdown, beside: bool)
    requires AtMost(baseline, total) && Uniform(baseline, beside) && Uniform(total, beside)
    ensures TurnUsage(Subtract(total, baseline)).Tokens() == total.total - baseline.total
    ensures Subtract(total, baseline).total == total.total - baseline.total
  {
  }

  lemma SettlingConserves(l: Ledger, e: Event, t: Thread, total: Breakdown, beside: bool)
    requires Settles(l, e, t) == Some(total) && !l.Unknown(t)
    requires Ordered(l.Baseline(t), total) && Uniform(l.Baseline(t), beside) && Uniform(total, beside)
    ensures Apply(l, e).Baseline(t) == total && !Apply(l, e).Unknown(t)
    ensures total.total + SetBack(l, e, t) == l.Baseline(t).total + Charge(l, e, t)
  {
    hide TurnUsage;
    if AtMost(l.Baseline(t), total) { DeltaIsGrowth(total, l.Baseline(t), beside); }
  }

  lemma OtherEventsKeepBaseline(l: Ledger, e: Event, t: Thread, cur: Breakdown)
    requires OnThread(l, t) && !l.Unknown(t) && Settles(l, e, t) == None
    requires AtMost(l.Baseline(t), Newest(l, e, t, cur))
    ensures Apply(l, e).Baseline(t) == l.Baseline(t) && !Apply(l, e).Unknown(t)
  {
  }

  /** Every event: the baseline moves by what is charged, less what it is set back by. */
  lemma StepConserves(l: Ledger, e: Event, t: Thread, cur: Breakdown, beside: bool)
    requires OnThread(l, t) && !l.Unknown(t) && Chained(l, t, cur, beside)
    requires AtMost(cur, Newest(l, e, t, cur)) && Uniform(Newest(l, e, t, cur), beside)
    ensures !Apply(l, e).Unknown(t)
    ensures Apply(l, e).Baseline(t).total + SetBack(l, e, t) == l.Baseline(t).total + Charge(l, e, t)
  {
    hide Uniform, Apply, Newest;
    var total := Settles(l, e, t);
    assert l.Baseline(t) in Held(l, t);
    if total.Some? {
      assert total.value in Held(l, t);
      SettlingConserves(l, e, t, total.value, beside);
    } else {
      OtherEventsKeepBaseline(l, e, t, cur);
    }
  }

  /**
   * Conservation: on a thread whose baseline is known and whose totals never fall, everything charged over any run of
   * turns, retries, late reports, repeated settlements and compactions, overlapping or not, is the growth of the
   * settled total and what the baseline was set back by on the way.
   */
  lemma {:induction false} ChargesEqualGrowth(l: Ledger, events: seq<Event>, t: Thread, cur: Breakdown, beside: bool)
    requires OnThread(l, t) && !l.Unknown(t) && Chained(l, t, cur, beside) && Steady(l, events, t, cur, beside)
    ensures Charged(l, events, t) == After(l, events).Baseline(t).total - l.Baseline(t).total + AllSetBack(l, events, t)
    decreases |events|
  {
    hide OnThread, Uniform, AtMost, Apply, Charge, Newest, Chained, SetBack;
    if events != [] {
      StepConserves(l, events[0], t, cur, beside);
      StaysOnThread(l, events[0], t);
      StaysChained(l, events[0], t, cur, beside);
      ChargesEqualGrowth(Apply(l, events[0]), events[1..], t, Newest(l, events[0], t, cur), beside);
    }
  }

  /** Every settlement, of a turn or of a compaction, is at a total at least the one the thread was settled at. */
  predicate NeverSetBack(l: Ledger, events: seq<Event>, t: Thread)
    decreases |events|
  {
    events != [] ==>
      && (Settles(l, events[0], t).Some? ==> l.Baseline(t).total <= Settles(l, events[0], t).value.total)
      && NeverSetBack(Apply(l, events[0]), events[1..], t)
  }

  lemma {:induction false} NothingSetBackIff(l: Ledger, events: seq<Event>, t: Thread)
    ensures AllSetBack(l, events, t) == 0 <==> NeverSetBack(l, events, t)
    decreases |events|
  {
    hide Apply, Settles;
    if events != [] { NothingSetBackIff(Apply(l, events[0]), events[1..], t); }
  }

  /** The charges are exactly the growth of the settled total if and only if no settlement sets the baseline back. */
  lemma ConservesIff(l: Ledger, events: seq<Event>, t: Thread, cur: Breakdown, beside: bool)
    requires OnThread(l, t) && !l.Unknown(t) && Chained(l, t, cur, beside) && Steady(l, events, t, cur, beside)
    ensures Charged(l, events, t) == After(l, events).Baseline(t).total - l.Baseline(t).total <==>
        NeverSetBack(l, events, t)
  {
    hide OnThread, Chained, Steady, NeverSetBack, AllSetBack;
    ChargesEqualGrowth(l, events, t, cur, beside);
    NothingSetBackIff(l, events, t);
  }

  // ---------- totals that fall ----------

  /** What rose from one total to another, by parts; reasoning is a part only where it is counted beside the output. */
  function Up(from: Breakdown, to: Breakdown, beside: bool): nat {
    Minus(to.input, from.input) + Minus(to.output, from.output)
    + (if beside then Minus(to.reasoning, from.reasoning) else 0)
  }

  /** How much the observed totals of the thread rose, counting no fall against it. */
  function Growth(l: Ledger, events: seq<Event>, t: Thread, cur: Breakdown, beside: bool): nat
    decreases |events|
  {
    if events == [] then 0
    else
      Up(cur, Newest(l, events[0], t, cur), beside)
      + Growth(Apply(l, events[0]), events[1..], t, Newest(l, events[0], t, cur), beside)
  }

  /** What is observed and not yet charged. */
  function Unsettled(l: Ledger, t: Thread, cur: Breakdown, beside: bool): nat {
    if l.Unknown(t) then 0 else Up(l.Baseline(t), cur, beside)
  }

  lemma UpChains(a: Breakdown, b: Breakdown, c: Breakdown, beside: bool)
    ensures Up(a, c, beside) <= Up(a, b, beside) + Up(b, c, beside) && Up(a, a, beside) == 0
  {
  }

  /**
   * How far a settlement goes out of the way from the baseline to the newest total: nothing, when it settles at that.
   */
  function Detour(l: Ledger, e: Event, t: Thread, cur: Breakdown, beside: bool): nat {
    var total := Settles(l, e, t);
    if total == None then 0
    else
      UpChains(l.Baseline(t), total.value, cur, beside);
      (if l.Unknown(t) then 0 else Up(l.Baseline(t), total.value, beside)) + Up(total.value, cur, beside)
      - Unsettled(l, t, cur, beside)
  }

  function AllDetours(l: Ledger, events: seq<Event>, t: Thread, cur: Breakdown, beside: bool): nat
    decreases |events|
  {
    if events == [] then 0
    else
      Detour(l, events[0], t, cur, beside)
      + AllDetours(Apply(l, events[0]), events[1..], t, Newest(l, events[0], t, cur), beside)
  }

  /**
   * Every held total counts reasoning within the output, unless reasoning is bounded as a part of its own: then totals
   * may count it either way, or in no way at all.
   */
  predicate Counted(l: Ledger, t: Thread, cur: Breakdown, beside: bool) {
    !beside ==> Uniform(cur, false) && forall a :: a in Held(l, t) ==> Uniform(a, false)
  }

  /** So does every total observed in the run. */
  predicate AllCounted(l: Ledger, events: seq<Event>, t: Thread, cur: Breakdown, beside: bool)
    decreases |events|
  {
    events != [] && !beside ==>
      && Uniform(Newest(l, events[0], t, cur), false)
      && AllCounted(Apply(l, events[0]), events[1..], t, Newest(l, events[0], t, cur), beside)
  }

  lemma StaysCounted(l: Ledger, e: Event, t: Thread, cur: Breakdown, beside: bool)
    requires OnThread(l, t) && Counted(l, t, cur, beside)
    requires !beside ==> Uniform(Newest(l, e, t, cur), false)
    ensures Counted(Apply(l, e), t, Newest(l, e, t, cur), beside)
  {
    hide Uniform, Held, Apply, Newest;
    HoldsNoMore(l, e, t, cur);
  }

  lemma ChargeIsUp(total: Breakdown, baseline: Breakdown, beside: bool)
    requires !beside ==> Uniform(total, false) && Uniform(baseline, false)
    ensures TurnUsage(Subtract(total, baseline)).Tokens() <= Up(baseline, total, beside)
  {
  }

  lemma SettlingCharges(l: Ledger, e: Event, t: Thread, cur: Breakdown, beside: bool)
    requires Settles(l, e, t).Some? && Counted(l, t, cur, beside)
    ensures Charge(l, e, t) + Unsettled(Apply(l, e), t, cur, beside)
         <= Unsettled(l, t, cur, beside) + Detour(l, e, t, cur, beside)
    ensures Newest(l, e, t, cur) == cur
  {
    hide Up, TurnUsage, Subtract, Uniform;
    var total := Settles(l, e, t).value;
    assert total in Held(l, t) && l.Baseline(t) in Held(l, t);
    ChargeIsUp(total, l.Baseline(t), beside);
  }

  lemma ObservingCharges(l: Ledger, e: Event, t: Thread, cur: Breakdown, beside: bool)
    requires OnThread(l, t) && Settles(l, e, t) == None
    ensures Unsettled(Apply(l, e), t, Newest(l, e, t, cur), beside)
         <= Unsettled(l, t, cur, beside) + Up(cur, Newest(l, e, t, cur), beside)
  {
    hide Up;
    var next := Newest(l, e, t, cur);
    UpChains(l.Baseline(t), cur, next, beside);
    UpChains(next, cur, cur, beside);
    UpChains(cur, next, next, beside);
  }

  /**
   * However totals rise and fall, no more is ever charged than what the observed totals rose by, and the settlements'
   * detours. Where totals count reasoning within the output, its rise is in the output's and not counted again.
   */
  lemma {:induction false} NeverOvercharges(l: Ledger, events: seq<Event>, t: Thread, cur: Breakdown, beside: bool)
    requires OnThread(l, t) && Counted(l, t, cur, beside) && AllCounted(l, events, t, cur, beside)
    ensures Charged(l, events, t)
         <= Unsettled(l, t, cur, beside) + Growth(l, events, t, cur, beside) + AllDetours(l, events, t, cur, beside)
    decreases |events|
  {
    hide OnThread, Apply, Newest, Up, Unsettled, Settles, Detour, Counted, Uniform;
    if events != [] {
      if Settles(l, events[0], t).Some? {
        SettlingCharges(l, events[0], t, cur, beside);
        UpChains(cur, cur, cur, beside);
      } else {
        ObservingCharges(l, events[0], t, cur, beside);
      }
      StaysOnThread(l, events[0], t);
      StaysCounted(l, events[0], t, cur, beside);
      NeverOvercharges(Apply(l, events[0]), events[1..], t, Newest(l, events[0], t, cur), beside);
    }
  }

  /** Every settlement is at the newest observed total. */
  predicate Timely(l: Ledger, events: seq<Event>, t: Thread, cur: Breakdown)
    decreases |events|
  {
    events != [] ==>
      && Settles(l, events[0], t) in {None, Some(cur)}
      && Timely(Apply(l, events[0]), events[1..], t, Newest(l, events[0], t, cur))
  }

  lemma {:induction false} TimelyHasNoDetours(l: Ledger, events: seq<Event>, t: Thread, cur: Breakdown, beside: bool)
    requires Timely(l, events, t, cur)
    ensures AllDetours(l, events, t, cur, beside) == 0
    decreases |events|
  {
    hide Apply, Newest, Up, Settles;
    if events != [] {
      UpChains(cur, cur, cur, beside);
      TimelyHasNoDetours(Apply(l, events[0]), events[1..], t, Newest(l, events[0], t, cur), beside);
    }
  }

  /**
   * When every settlement is at the newest total, the charges never exceed the observed growth, whatever falls in
   * between.
   */
  lemma TimelyNeverOvercharges(l: Ledger, events: seq<Event>, t: Thread, cur: Breakdown, beside: bool)
    requires OnThread(l, t) && Timely(l, events, t, cur)
    requires Counted(l, t, cur, beside) && AllCounted(l, events, t, cur, beside)
    ensures Charged(l, events, t) <= Unsettled(l, t, cur, beside) + Growth(l, events, t, cur, beside)
  {
    hide OnThread, Timely, AllDetours, Counted, AllCounted;
    NeverOvercharges(l, events, t, cur, beside);
    TimelyHasNoDetours(l, events, t, cur, beside);
  }

  // ---------- the same from the events alone ----------

  /** How the last report of the turn, or of the compaction, stands: settled or dropped, to be settled, or overtaken. */
  datatype Standing = Silent | Waiting | Overtaken

  /**
   * What the events so far show of thread `t`, without any totals: the thread of the compaction under way, and which of
   * the two reported last. A report is overtaken when a later one of the other is settled before it.
   */
  datatype Watch = Watch(turn: Standing, compaction: Standing, on: Option<Thread>, turnLast: bool)
  const IDLE := Watch(Silent, Silent, None, false)

  /** The total of `t` that this event reports, if it reports one. */
  function Seen(w: Watch, e: Event, t: Thread): Option<Breakdown> {
    match e
    case Report(thread, total) => if thread in {None, Some(""), Some(t)} then total else None
    case CompactionReport(seen) => if w.on == Some(t) then seen else None
    case _ => None
  }

  function Watched(w: Watch, e: Event, t: Thread): Watch {
    match e
    case Begin => w.(turn := Silent)
    case Report(_, _) => if Seen(w, e, t) == None then w else w.(turn := Waiting, turnLast := true)
    case Settle =>
      w.(turn := Silent,
         compaction := if w.turn.Waiting? && w.turnLast && w.compaction.Waiting? then Overtaken else w.compaction)
    case StartCompaction(on) => if w.on.Some? then w else w.(on := Some(on))
    case CompactionReport(_) => if Seen(w, e, t) == None then w else w.(compaction := Waiting, turnLast := false)
    case EndCompaction =>
      w.(on := None, compaction := Silent,
         turn := if w.compaction.Waiting? && !w.turnLast && w.turn.Waiting? then Overtaken else w.turn)
    case DropCompaction => w.(on := None, compaction := Silent)
  }

  /** No overtaken report is settled. */
  predicate NoneOvertaken(w: Watch, events: seq<Event>, t: Thread)
    decreases |events|
  {
    events != [] ==>
      && (events[0].Settle? ==> !w.turn.Overtaken?)
      && (events[0].EndCompaction? ==> !w.compaction.Overtaken?)
      && NoneOvertaken(Watched(w, events[0], t), events[1..], t)
  }

  /**
   * No compaction reports between a turn's last report and its settlement, and no turn between a compaction's last
   * report and its end.
   */
  predicate Undisturbed(w: Watch, events: seq<Event>, t: Thread)
    decreases |events|
  {
    events != [] ==>
      && (events[0].Settle? && !w.turn.Silent? ==> w.turnLast)
      && (events[0].EndCompaction? && !w.compaction.Silent? ==> !w.turnLast)
      && Undisturbed(Watched(w, events[0], t), events[1..], t)
  }

  /** Every reported total is above the one reported before it. */
  predicate Rising(w: Watch, events: seq<Event>, t: Thread, cur: Breakdown)
    decreases |events|
  {
    events != [] ==>
      var next := Seen(w, events[0], t);
      && (next.Some? ==> cur.total < next.value.total)
      && Rising(Watched(w, events[0], t), events[1..], t, if next.Some? then next.value else cur)
  }

  /** The watch shows what the ledger holds. */
  predicate Shows(w: Watch, l: Ledger, t: Thread, cur: Breakdown) {
    var turn, compaction := Settles(l, Settle, t), Settles(l, EndCompaction, t);
    && w.on == (if l.compaction == None then None else Some(l.compaction.value.on))
    && (w.turn.Silent? <==> turn == None) && (w.compaction.Silent? <==> compaction == None)
    && (turn.Some? && w.turnLast ==> turn.value == cur)
    && (compaction.Some? && !w.turnLast ==> compaction.value == cur)
    && (w.turn.Overtaken? ==> !w.turnLast) && (w.compaction.Overtaken? ==> w.turnLast)
  }

  lemma StaysShown(w: Watch, l: Ledger, e: Event, t: Thread, cur: Breakdown)
    requires OnThread(l, t) && Shows(w, l, t, cur)
    ensures Shows(Watched(w, e, t), Apply(l, e), t, Newest(l, e, t, cur))
    ensures Newest(l, e, t, cur) == if Seen(w, e, t).Some? then Seen(w, e, t).value else cur
  {
  }

  /** A ledger between turns and compactions. */
  predicate Idle(l: Ledger) { l.turn.updates == 0 && l.compaction == None }

  lemma IdleIsShown(l: Ledger, t: Thread, cur: Breakdown)
    requires Idle(l)
    ensures Shows(IDLE, l, t, cur)
  {
  }

  lemma {:induction false} UndisturbedIsTimely(w: Watch, l: Ledger, events: seq<Event>, t: Thread, cur: Breakdown)
    requires OnThread(l, t) && Shows(w, l, t, cur) && Undisturbed(w, events, t)
    ensures Timely(l, events, t, cur)
    decreases |events|
  {
    hide OnThread, Apply, Newest, Watched, Seen;
    if events != [] {
      StaysOnThread(l, events[0], t);
      StaysShown(w, l, events[0], t, cur);
      UndisturbedIsTimely(Watched(w, events[0], t), Apply(l, events[0]), events[1..], t, Newest(l, events[0], t, cur));
    }
  }

  /**
   * Where totals rise: a waiting report is at least the baseline, an overtaken one is below it, and of two the later
   * one is the larger.
   */
  predicate Stands(w: Watch, l: Ledger, t: Thread, cur: Breakdown) {
    var turn, compaction := Settles(l, Settle, t), Settles(l, EndCompaction, t);
    && l.Baseline(t).total <= cur.total
    && (turn.Some? ==> StandsAt(w.turn, turn.value, l.Baseline(t), cur))
    && (compaction.Some? ==> StandsAt(w.compaction, compaction.value, l.Baseline(t), cur))
    && (turn.Some? && compaction.Some? ==>
          if w.turnLast then compaction.value.total < turn.value.total else turn.value.total < compaction.value.total)
  }

  predicate StandsAt(s: Standing, total: Breakdown, baseline: Breakdown, cur: Breakdown) {
    total.total <= cur.total && if s.Overtaken? then total.total < baseline.total else baseline.total <= total.total
  }

  /** An overtaken report is settled by this event. */
  predicate SettlesOvertaken(w: Watch, e: Event) {
    (e.Settle? && w.turn.Overtaken?) || (e.EndCompaction? && w.compaction.Overtaken?)
  }

  /** What a step owes: after it reports still stand as before, unless it settles one below the baseline. */
  predicate Keeps(w: Watch, l: Ledger, e: Event, t: Thread, cur: Breakdown) {
    && (!SettlesOvertaken(w, e) ==> Stands(Watched(w, e, t), Apply(l, e), t, Newest(l, e, t, cur)))
    && (SettlesOvertaken(w, e) <==> Settles(l, e, t).Some? && Settles(l, e, t).value.total < l.Baseline(t).total)
  }

  lemma ReportKeeps(w: Watch, l: Ledger, e: Event, t: Thread, cur: Breakdown)
    requires OnThread(l, t) && Shows(w, l, t, cur) && Stands(w, l, t, cur)
    requires Seen(w, e, t).Some? && cur.total < Seen(w, e, t).value.total
    ensures Keeps(w, l, e, t, cur)
  {
    hide OnThread, Apply, Newest, Settles;
    ReportIsHeld(w, l, e, t, cur);
  }

  /** A report above the baseline becomes the one to settle of its kind, and leaves the rest. */
  lemma ReportIsHeld(w: Watch, l: Ledger, e: Event, t: Thread, cur: Breakdown)
    requires OnThread(l, t) && Shows(w, l, t, cur)
    requires Seen(w, e, t).Some? && l.Baseline(t).total <= Seen(w, e, t).value.total
    ensures var m := Apply(l, e);
      && m.Baseline(t) == l.Baseline(t) && Newest(l, e, t, cur) == Seen(w, e, t).value
      && Settles(m, Settle, t) == (if e.Report? then Seen(w, e, t) else Settles(l, Settle, t))
      && Settles(m, EndCompaction, t) == (if e.Report? then Settles(l, EndCompaction, t) else Seen(w, e, t))
      && Settles(l, e, t) == None
  {
  }

  lemma SettlementKeeps(w: Watch, l: Ledger, t: Thread, cur: Breakdown)
    requires OnThread(l, t) && Shows(w, l, t, cur) && Stands(w, l, t, cur)
    ensures Keeps(w, l, Settle, t, cur)
  {
  }

  lemma EndKeeps(w: Watch, l: Ledger, t: Thread, cur: Breakdown)
    requires OnThread(l, t) && Shows(w, l, t, cur) && Stands(w, l, t, cur)
    ensures Keeps(w, l, EndCompaction, t, cur)
  {
  }

  lemma OtherKeeps(w: Watch, l: Ledger, e: Event, t: Thread, cur: Breakdown)
    requires OnThread(l, t) && Shows(w, l, t, cur) && Stands(w, l, t, cur)
    requires !e.Settle? && !e.EndCompaction? && Seen(w, e, t) == None
    ensures Keeps(w, l, e, t, cur)
  {
    hide OnThread, Apply, Newest, Settles;
    OtherIsKept(w, l, e, t, cur);
  }

  lemma OtherIsKept(w: Watch, l: Ledger, e: Event, t: Thread, cur: Breakdown)
    requires OnThread(l, t) && Shows(w, l, t, cur)
    requires !e.Settle? && !e.EndCompaction? && Seen(w, e, t) == None
    ensures var m := Apply(l, e);
      && m.Baseline(t) == l.Baseline(t) && Newest(l, e, t, cur) == cur
      && Settles(m, Settle, t) == (if e.Begin? then None else Settles(l, Settle, t))
      && Settles(m, EndCompaction, t) == (if e.DropCompaction? then None else Settles(l, EndCompaction, t))
      && Settles(l, e, t) == None
  {
  }

  lemma StaysStanding(w: Watch, l: Ledger, e: Event, t: Thread, cur: Breakdown)
    requires OnThread(l, t) && Shows(w, l, t, cur) && Stands(w, l, t, cur)
    requires Seen(w, e, t).Some? ==> cur.total < Seen(w, e, t).value.total
    ensures Keeps(w, l, e, t, cur)
  {
    hide OnThread, Shows, Stands, Keeps;
    if e.Settle? {
      SettlementKeeps(w, l, t, cur);
    } else if e.EndCompaction? {
      EndKeeps(w, l, t, cur);
    } else if Seen(w, e, t).Some? {
      ReportKeeps(w, l, e, t, cur);
    } else {
      OtherKeeps(w, l, e, t, cur);
    }
  }

  lemma {:induction false} NoneOvertakenIff(w: Watch, l: Ledger, events: seq<Event>, t: Thread, cur: Breakdown)
    requires OnThread(l, t) && Shows(w, l, t, cur) && Stands(w, l, t, cur) && Rising(w, events, t, cur)
    ensures NoneOvertaken(w, events, t) <==> NeverSetBack(l, events, t)
    decreases |events|
  {
    hide OnThread, Apply, Newest, Watched, Seen, Shows, Stands, Settles;
    if events != [] {
      StaysOnThread(l, events[0], t);
      StaysShown(w, l, events[0], t, cur);
      StaysStanding(w, l, events[0], t, cur);
      if !SettlesOvertaken(w, events[0]) {
        var next := Newest(l, events[0], t, cur);
        NoneOvertakenIff(Watched(w, events[0], t), Apply(l, events[0]), events[1..], t, next);
      }
    }
  }

  /**
   * Which orders of events conserve: from an idle ledger, with totals that rise from report to report, the charges are
   * the growth of the settled total if and only if no report is settled after a later report of the other was.
   */
  lemma OrderConservesIff(l: Ledger, events: seq<Event>, t: Thread, cur: Breakdown, beside: bool)
    requires OnThread(l, t) && !l.Unknown(t) && Idle(l)
    requires Chained(l, t, cur, beside) && Steady(l, events, t, cur, beside) && Rising(IDLE, events, t, cur)
    ensures Charged(l, events, t) == After(l, events).Baseline(t).total - l.Baseline(t).total <==>
        NoneOvertaken(IDLE, events, t)
  {
    hide OnThread, Steady, NeverSetBack, NoneOvertaken, Rising, After, Charged, Uniform;
    ConservesIff(l, events, t, cur, beside);
    IdleIsShown(l, t, cur);
    assert l.Baseline(t) in Held(l, t);
    NoneOvertakenIff(IDLE, l, events, t, cur);
  }

  /**
   * Which orders of events never overcharge, however totals fall: from an idle ledger, when no compaction reports
   * between a turn's last report and its settlement and no turn between a compaction's and its end.
   */
  lemma UndisturbedNeverOvercharges(l: Ledger, events: seq<Event>, t: Thread, cur: Breakdown, beside: bool)
    requires OnThread(l, t) && Idle(l) && Undisturbed(IDLE, events, t)
    requires Counted(l, t, cur, beside) && AllCounted(l, events, t, cur, beside)
    ensures Charged(l, events, t) <= Unsettled(l, t, cur, beside) + Growth(l, events, t, cur, beside)
  {
    hide OnThread, Timely, Undisturbed, Counted, AllCounted;
    IdleIsShown(l, t, cur);
    UndisturbedIsTimely(IDLE, l, events, t, cur);
    TimelyNeverOvercharges(l, events, t, cur, beside);
  }

  // ---------- an overlap that charges twice ----------

  function InputOnly(n: nat): Breakdown { Breakdown(n, 0, 0, 0, n) }

  function SettledAt(t: Thread, base: nat, turn: Turn, compaction: Option<Compaction>): Ledger {
    Ledger(Some(t), map[t := InputOnly(base)], {}, turn, compaction)
  }

  function Reported(t: Thread, n: nat): Turn { Turn(Some(t), Some(InputOnly(n)), 1, false, None) }

  /** The ledger after an event, what it charged, and the newest total then. */
  predicate Goes(l: Ledger, e: Event, m: Ledger, t: Thread, cur: nat, charge: nat, next: nat) {
    && Apply(l, e) == m && Charge(l, e, t) == charge && Newest(l, e, t, InputOnly(cur)) == InputOnly(next)
  }

  lemma Reports(t: Thread, base: nat, compaction: Option<Compaction>, cur: nat, n: nat)
    requires t != "" && base <= n
    ensures Goes(SettledAt(t, base, FRESH, compaction), Report(Some(t), Some(InputOnly(n))),
                 SettledAt(t, base, Reported(t, n), compaction), t, cur, 0, n)
  {
  }

  lemma Ends(t: Thread, base: nat, turn: Turn, n: nat)
    ensures Goes(SettledAt(t, base, turn, Some(Compaction(t, Some(InputOnly(n))))), EndCompaction,
                 SettledAt(t, n, turn, None), t, n, Minus(n, base), n)
  {
    var none: set<Thread> := {};
    assert none - {t} == none && map[t := InputOnly(base)][t := InputOnly(n)] == map[t := InputOnly(n)];
  }

  lemma TurnSettles(t: Thread, base: nat, cur: nat, n: nat) returns (turn: Turn)
    ensures Goes(SettledAt(t, base, Reported(t, n), None), Settle, SettledAt(t, n, turn, None), t, cur,
        Minus(n, base), cur)
  {
    var none: set<Thread> := {};
    assert none - {t} == none && map[t := InputOnly(base)][t := InputOnly(n)] == map[t := InputOnly(n)];
    turn := Apply(SettledAt(t, base, Reported(t, n), None), Settle).turn;
  }

  lemma Waits(t: Thread, base: nat, turn: Turn, compaction: Option<Compaction>, cur: nat)
    ensures Goes(SettledAt(t, base, turn, compaction), Begin, SettledAt(t, base, FRESH, compaction), t, cur, 0, cur)
    ensures compaction == None ==>
              Goes(SettledAt(t, base, turn, None), StartCompaction(t),
                  SettledAt(t, base, turn, Some(Compaction(t, None))), t, cur, 0, cur)
  {
  }

  lemma CompactionSees(t: Thread, base: nat, turn: Turn, cur: nat, n: nat)
    ensures Goes(SettledAt(t, base, turn, Some(Compaction(t, None))), CompactionReport(Some(InputOnly(n))),
                 SettledAt(t, base, turn, Some(Compaction(t, Some(InputOnly(n))))), t, cur, 0, n)
  {
  }

  function Cons(e: Event, rest: seq<Event>): seq<Event> { [e] + rest }

  lemma Then(l: Ledger, e: Event, m: Ledger, t: Thread, cur: nat, charge: nat, next: nat, rest: seq<Event>,
      beside: bool)
    requires Goes(l, e, m, t, cur, charge, next)
    ensures Charged(l, Cons(e, rest), t) == charge + Charged(m, rest, t)
    ensures Growth(l, Cons(e, rest), t, InputOnly(cur), beside)
         == Minus(next, cur) + Growth(m, rest, t, InputOnly(next), beside)
  {
    hide Charge, Apply, Newest;
    assert Cons(e, rest)[1..] == rest;
  }

  lemma NoMore(l: Ledger, t: Thread, cur: nat, beside: bool)
    ensures Charged(l, [], t) == 0 && Growth(l, [], t, InputOnly(cur), beside) == 0
  {
  }

  /** A turn that begins settled at `base` and reports `n`. */
  lemma NextTurn(t: Thread, base: nat, turn: Turn, cur: nat, n: nat, beside: bool)
    requires t != "" && base <= n
    ensures var l := SettledAt(t, base, turn, None);
      var events := Cons(Begin, Cons(Report(Some(t), Some(InputOnly(n))), Cons(Settle, [])));
      Charged(l, events, t) == n - base && Growth(l, events, t, InputOnly(cur), beside) == Minus(n, cur)
  {
    hide Charged, Growth, Cons, Goes, SettledAt, Reported, InputOnly;
    var report := Report(Some(t), Some(InputOnly(n)));
    Waits(t, base, turn, None, cur);
    Reports(t, base, None, cur, n);
    var after := TurnSettles(t, base, n, n);
    NoMore(SettledAt(t, n, after, None), t, n, beside);
    Then(SettledAt(t, base, turn, None), Begin, SettledAt(t, base, FRESH, None), t, cur, 0, cur,
        Cons(report, Cons(Settle, [])), beside);
    Then(SettledAt(t, base, FRESH, None), report, SettledAt(t, base, Reported(t, n), None), t, cur, 0, n,
        Cons(Settle, []), beside);
    Then(SettledAt(t, base, Reported(t, n), None), Settle, SettledAt(t, n, after, None), t, n, n - base, n, [], beside);
  }

  /**
   * A compaction the host stopped waiting for stays registered. The turn begun meanwhile reports `a`, the compaction
   * ends inside it at the larger `b`, and the turn settles at `a`: the baseline is set back, and the next turn, which
   * reports nothing new, is charged the last `b - a` tokens a second time.
   */
  lemma OverlapChargesTwice(t: Thread, a: nat, b: nat, beside: bool)
    requires t != "" && a < b
    ensures var l := SettledAt(t, 0, FRESH, None);
      var events := Cons(StartCompaction(t),
          Cons(Begin, Cons(Report(Some(t), Some(InputOnly(a))), Cons(CompactionReport(Some(InputOnly(b))),
        Cons(EndCompaction, Cons(Settle, Cons(Begin, Cons(Report(Some(t), Some(InputOnly(b))), Cons(Settle, [])))))))));
      && OnThread(l, t)
      && Growth(l, events, t, InputOnly(0), beside) == b && Charged(l, events, t) == b + (b - a)
  {
    hide Charged, Growth, Cons, Goes, Reported, InputOnly;
    var seen, report := CompactionReport(Some(InputOnly(b))), Report(Some(t), Some(InputOnly(a)));
    var next := Cons(Begin, Cons(Report(Some(t), Some(InputOnly(b))), Cons(Settle, [])));
    var open := Some(Compaction(t, None));
    var full := Some(Compaction(t, Some(InputOnly(b))));
    var turn := Reported(t, a);
    Waits(t, 0, FRESH, None, 0);
    Waits(t, 0, FRESH, open, 0);
    Reports(t, 0, open, 0, a);
    CompactionSees(t, 0, turn, a, b);
    Ends(t, 0, turn, b);
    var after := TurnSettles(t, b, b, a);
    NextTurn(t, a, after, b, b, beside);
    Then(SettledAt(t, b, turn, None), Settle, SettledAt(t, a, after, None), t, b, 0, b, next, beside);
    Then(SettledAt(t, 0, turn, full), EndCompaction, SettledAt(t, b, turn, None), t, b, b, b,
        Cons(Settle, next), beside);
    Then(SettledAt(t, 0, turn, open), seen, SettledAt(t, 0, turn, full), t, a, 0, b,
        Cons(EndCompaction, Cons(Settle, next)), beside);
    var behind := Cons(seen, Cons(EndCompaction, Cons(Settle, next)));
    Then(SettledAt(t, 0, FRESH, open), report, SettledAt(t, 0, turn, open), t, 0, 0, a, behind, beside);
    Then(SettledAt(t, 0, FRESH, open), Begin, SettledAt(t, 0, FRESH, open), t, 0, 0, 0, Cons(report, behind), beside);
    Then(SettledAt(t, 0, FRESH, None), StartCompaction(t), SettledAt(t, 0, FRESH, open), t, 0, 0, 0,
        Cons(Begin, Cons(report, behind)), beside);
  }

  // ---------- the ledger as the host keeps it ----------

  class Meter {
    var thread: Option<Thread>
    var baselines: map<Thread, Breakdown>
    var unknown: set<Thread>
    var turnThread: Option<Thread>
    var turnTotal: Option<Breakdown>
    var turnUpdates: nat
    var turnReset: bool
    var settledUsage: Option<Usage>
    var compaction: Option<Compaction>

    ghost function Value(): Ledger
      reads this
    {
      Ledger(thread, baselines, unknown, Turn(turnThread, turnTotal, turnUpdates, turnReset, settledUsage), compaction)
    }

    constructor (thread: Option<Thread>)
      ensures Value() == Ledger(thread, map[], {}, FRESH, None)
    {
      this.thread, baselines, unknown := thread, map[], {};
      turnThread, turnTotal, turnUpdates, turnReset, settledUsage := None, None, 0, false, None;
      compaction := None;
    }

    /** A restored conversation continues its thread, with the baseline it saved if it saved one. */
    method Resume(t: Thread, baseline: Option<Breakdown>)
      modifies this
      ensures Value() == old(Value()).(
          thread := Some(t),
          baselines := if baseline.Some? then old(baselines)[t := baseline.value] else old(baselines),
          unknown := if baseline.Some? then old(unknown) else old(unknown) + {t})
      ensures baseline == None && t !in old(baselines) ==> Value().Unknown(t)
      ensures baseline.Some? ==> !Value().Unknown(t) && Value().Baseline(t) == baseline.value
    {
      thread := Some(t);
      if baseline.Some? { baselines := baselines[t := baseline.value]; } else { unknown := unknown + {t}; }
    }

    method ResetTurnObservations()
      modifies this
      ensures Value() == Apply(old(Value()), Begin)
    {
      turnThread, turnTotal, turnUpdates, turnReset, settledUsage := None, None, 0, false, None;
    }

    method ObserveTokenUsage(reported: Option<Thread>, total: Option<Breakdown>)
      modifies this
      ensures Value() == Apply(old(Value()), Report(reported, total))
    {
      var t := if reported == None || reported.value == "" then thread else reported;
      if t == None || t.value == "" || total == None { return; }
      if (thread.Some? && thread.value != "" && t != thread) || (turnThread.Some? && turnThread != t) { return; }
      turnThread := t;
      if t.value in baselines && total.value.total < baselines[t.value].total {
        baselines := baselines[t.value := total.value];
        turnReset := true;
      }
      turnTotal := total;
      turnUpdates := turnUpdates + 1;
    }

    method SettleTurnUsage() returns (usage: Option<Usage>)
      modifies this
      ensures Value() == Apply(old(Value()), Settle)
      ensures usage == if old(turnThread).Some? && old(turnTotal).Some? then settledUsage else None
      ensures old(turnUpdates) == 0 ==> Value() == old(Value())
    {
      if turnThread == None || turnTotal == None { return None; }
      var t, total := turnThread.value, turnTotal.value;
      var unknownBaseline := t in unknown && t !in baselines;
      var baseline := if t in baselines then baselines[t] else ZERO;
      var delta := Subtract(total, baseline);
      usage := if unknownBaseline then None
               else if delta.total > 0 then Some(TurnUsage(delta))
               else if turnReset then Some(Usage(0, 0, 0, None))
               else None;
      if turnUpdates > 0 {
        baselines := baselines[t := total];
        unknown := unknown - {t};
        turnUpdates := 0;
        settledUsage := usage;
        return usage;
      }
      return settledUsage;
    }

    method StartCompaction(on: Thread) returns (started: bool)
      modifies this
      ensures Value() == Apply(old(Value()), Event.StartCompaction(on)) && started == (old(compaction) == None)
    {
      if compaction.Some? { return false; }
      compaction := Some(Compaction(on, None));
      started := true;
    }

    method NoteCompactionUsage(seen: Option<Breakdown>)
      modifies this
      ensures Value() == Apply(old(Value()), CompactionReport(seen))
    {
      if compaction.Some? && seen.Some? { compaction := Some(compaction.value.(total := seen)); }
    }

    /** The compaction's terminal event: its usage, and the thread's new baseline. */
    method EndCompaction() returns (usage: Option<Usage>)
      modifies this
      ensures Value() == Apply(old(Value()), Event.EndCompaction)
      ensures old(compaction).Some? ==>
                (if usage == None then 0 else usage.value.Tokens())
                    == Charge(old(Value()), Event.EndCompaction, old(compaction).value.on)
    {
      if compaction == None { return None; }
      var ended := compaction.value;
      compaction := None;
      usage := CompactionUsage(ended.on, ended.total);
    }

    method DropCompaction()
      modifies this
      ensures Value() == Apply(old(Value()), Event.DropCompaction)
    {
      compaction := None;
    }

    method CompactionUsage(t: Thread, total: Option<Breakdown>) returns (usage: Option<Usage>)
      modifies this
      ensures Value() == if total == None then old(Value()) else old(Value()).Advanced(t, total.value)
      ensures usage == if total == None then None else UsageOfCompaction(old(Value()), t, total.value)
    {
      if total == None { return None; }
      var unknownBaseline := t in unknown && t !in baselines;
      var baseline := if t in baselines then baselines[t] else ZERO;
      baselines := baselines[t := total.value];
      unknown := unknown - {t};
      if unknownBaseline || total.value.total < baseline.total { return None; }
      var delta := Subtract(total.value, baseline);
      usage := if delta.total > 0 then Some(TurnUsage(delta)) else None;
    }
  }
}
