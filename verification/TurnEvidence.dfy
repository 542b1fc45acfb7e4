/** What a Claude turn's tool calls and their results leave as evidence of changed and refused files, in any order. */
module TurnEvidence {
  import opened Basics

  type Path = string
  /** A file, however its path is spelled. */
  type File = string
  type Identity = Path -> File

  datatype Tool = FileChange | Shell(mutating: bool) | Other
  datatype Status = Success | Refused | OtherStatus

  /** A call may come without an id; a file change may come without a path. */
  datatype Event =
    | Call(id: Option<string>, tool: Tool, path: Option<Path>)
    | Result(callId: string, status: Status)

  datatype Evidence = Evidence(
    changed: set<Path>, refused: set<File>, unrecorded: bool,
    targets: map<string, Path>, madeFiles: set<File>, madePaths: set<Path>)

  const EMPTY := Evidence({}, {}, false, map[], {}, {})

  function AfterCall(s: Evidence, e: Event): Evidence
    requires e.Call?
  {
    if e.tool.FileChange? then
      if e.path == None then s.(unrecorded := true)
      else s.(changed := s.changed + {e.path.value},
          targets := if e.id.Some? then s.targets[e.id.value := e.path.value] else s.targets)
    else if e.tool.Shell? && e.tool.mutating then s.(unrecorded := true)
    else s
  }

  function AfterResult(s: Evidence, e: Event, identity: Identity): Evidence
    requires e.Result?
  {
    if e.callId !in s.targets then s
    else
      var target, left := s.targets[e.callId], s.targets - {e.callId};
      var file := identity(target);
      match e.status
      case Success =>
        s.(targets := left, madeFiles := s.madeFiles + {file}, madePaths := s.madePaths + {target},
           changed := s.changed + {target}, refused := s.refused - {file})
      case Refused =>
        s.(targets := left,
           changed := if target in s.madePaths then s.changed else s.changed - {target},
           refused := if file in s.madeFiles then s.refused else s.refused + {file})
      case OtherStatus => s.(targets := left)
  }

  function Apply(s: Evidence, e: Event, identity: Identity): Evidence {
    if e.Call? then AfterCall(s, e) else AfterResult(s, e, identity)
  }

  /** The evidence after the first `n` events of a turn. */
  function At(trace: seq<Event>, n: nat, identity: Identity): Evidence
    requires n <= |trace|
    decreases n
  {
    if n == 0 then EMPTY else Apply(At(trace, n - 1, identity), trace[n - 1], identity)
  }

  // ---------- what happened, read off the trace alone ----------

  /** The paths of calls under way after the first `n` events, by id. */
  function Open(trace: seq<Event>, n: nat): map<string, Path>
    requires n <= |trace|
    decreases n
  {
    if n == 0 then map[]
    else
      match trace[n - 1]
      case Call(id, tool, path) =>
        if tool.FileChange? && path.Some? && id.Some? then Open(trace, n - 1)[id.value := path.value]
        else Open(trace, n - 1)
      case Result(id, _) => Open(trace, n - 1) - {id}
  }

  /** Event `j` is the result of a call that wrote to `p`. */
  predicate Ended(trace: seq<Event>, j: nat, p: Path, status: Status) {
    && j < |trace| && trace[j].Result? && trace[j].status == status
    && trace[j].callId in Open(trace, j) && Open(trace, j)[trace[j].callId] == p
  }

  predicate Asked(trace: seq<Event>, i: nat, p: Path) {
    i < |trace| && trace[i].Call? && trace[i].tool.FileChange? && trace[i].path == Some(p)
  }

  ghost predicate EverEnded(trace: seq<Event>, n: nat, p: Path, status: Status) {
    exists j :: 0 <= j < n && Ended(trace, j, p, status)
  }

  /** A call of this spelling came after its last refusal. */
  ghost predicate AskedSinceRefusal(trace: seq<Event>, n: nat, p: Path) {
    exists i :: 0 <= i < n && Asked(trace, i, p) && !EndedBetween(trace, i, n, p, Refused)
  }

  ghost predicate EndedBetween(trace: seq<Event>, i: nat, n: nat, p: Path, status: Status) {
    exists j :: i < j < n && Ended(trace, j, p, status)
  }

  ghost predicate FileEnded(trace: seq<Event>, n: nat, f: File, status: Status, identity: Identity) {
    exists p :: EverEnded(trace, n, p, status) && identity(p) == f
  }

  lemma EverEndedNext(trace: seq<Event>, n: nat, p: Path, status: Status)
    requires n < |trace|
    ensures EverEnded(trace, n + 1, p, status) <==> EverEnded(trace, n, p, status) || Ended(trace, n, p, status)
  {
  }

  lemma AskedSinceNext(trace: seq<Event>, n: nat, p: Path)
    requires n < |trace|
    ensures AskedSinceRefusal(trace, n + 1, p) <==>
            Asked(trace, n, p) || (AskedSinceRefusal(trace, n, p) && !Ended(trace, n, p, Refused))
  {
    hide Ended, Asked;
    if Asked(trace, n, p) {
      assert !EndedBetween(trace, n, n + 1, p, Refused);
    }
    forall i | 0 <= i < n
      ensures EndedBetween(trace, i, n + 1, p, Refused) <==>
          EndedBetween(trace, i, n, p, Refused) || Ended(trace, n, p, Refused)
    {
    }
  }

  lemma FileEndedNext(trace: seq<Event>, n: nat, f: File, status: Status, identity: Identity)
    requires n < |trace|
    ensures FileEnded(trace, n + 1, f, status, identity) <==>
            FileEnded(trace, n, f, status, identity) || exists p :: Ended(trace, n, p, status) && identity(p) == f
  {
    hide Ended, EverEnded;
    forall p
      ensures EverEnded(trace, n + 1, p, status) <==> EverEnded(trace, n, p, status) || Ended(trace, n, p, status)
    {
      EverEndedNext(trace, n, p, status);
    }
  }

  /** The evidence says exactly this of the trace so far. */
  ghost predicate Tells(s: Evidence, trace: seq<Event>, n: nat, identity: Identity)
    requires n <= |trace|
  {
    && s.targets == Open(trace, n)
    && (forall p :: p in s.madePaths <==> EverEnded(trace, n, p, Success))
    && (forall p :: p in s.changed <==> EverEnded(trace, n, p, Success) || AskedSinceRefusal(trace, n, p))
    && (forall f :: f in s.madeFiles <==> FileEnded(trace, n, f, Success, identity))
    && (forall f :: f in s.refused <==>
        FileEnded(trace, n, f, Refused, identity) && !FileEnded(trace, n, f, Success, identity))
  }

  lemma TellsNext(trace: seq<Event>, n: nat, s: Evidence, identity: Identity)
    requires n < |trace| && Tells(s, trace, n, identity)
    ensures Tells(Apply(s, trace[n], identity), trace, n + 1, identity)
  {
    hide EverEnded, AskedSinceRefusal, FileEnded;
    var t := Apply(s, trace[n], identity);
    forall p
      ensures p in t.madePaths <==> EverEnded(trace, n + 1, p, Success)
      ensures p in t.changed <==> EverEnded(trace, n + 1, p, Success) || AskedSinceRefusal(trace, n + 1, p)
    {
      EverEndedNext(trace, n, p, Success);
      AskedSinceNext(trace, n, p);
    }
    forall f
      ensures f in t.madeFiles <==> FileEnded(trace, n + 1, f, Success, identity)
      ensures f in t.refused <==>
          FileEnded(trace, n + 1, f, Refused, identity) && !FileEnded(trace, n + 1, f, Success, identity)
    {
      FileEndedNext(trace, n, f, Success, identity);
      FileEndedNext(trace, n, f, Refused, identity);
    }
  }

  lemma {:induction false} EvidenceTells(trace: seq<Event>, n: nat, identity: Identity)
    requires n <= |trace|
    ensures Tells(At(trace, n, identity), trace, n, identity)
    decreases n
  {
    hide Apply;
    if n > 0 {
      EvidenceTells(trace, n - 1, identity);
      TellsNext(trace, n - 1, At(trace, n - 1, identity), identity);
    }
  }

  /**
   * For every interleaving of calls and results: the refused files are exactly those refused at least once and never
   * written, and a spelling is listed as changed exactly when a call of it succeeded or one came after its last
   * refusal.
   */
  lemma EvidenceIsExact(trace: seq<Event>, identity: Identity)
    ensures var s, n := At(trace, |trace|, identity), |trace|;
      && (forall f :: f in s.refused <==>
          FileEnded(trace, n, f, Refused, identity) && !FileEnded(trace, n, f, Success, identity))
      && (forall p :: p in s.changed <==> EverEnded(trace, n, p, Success) || AskedSinceRefusal(trace, n, p))
  {
    hide EverEnded, AskedSinceRefusal, FileEnded;
    EvidenceTells(trace, |trace|, identity);
  }

  /** A call that leaves no path to list: a file change without one, or a shell command that may change files. */
  predicate LeavesNoPath(e: Event) {
    e.Call? && ((e.tool == FileChange && e.path == None) || e.tool == Shell(true))
  }

  /** Writes count as unrecorded exactly when such a call came, whatever its result. */
  lemma {:induction false} UnrecordedIff(trace: seq<Event>, n: nat, identity: Identity)
    requires n <= |trace|
    ensures At(trace, n, identity).unrecorded <==> exists j :: 0 <= j < n && LeavesNoPath(trace[j])
    decreases n
  {
    if n > 0 {
      UnrecordedIff(trace, n - 1, identity);
      if LeavesNoPath(trace[n - 1]) { assert 0 <= n - 1 < n; }
    }
  }

  // ---------- once every result is in ----------

  predicate Names(e: Event, id: string) { if e.Call? then e.id == Some(id) else e.callId == id }

  /** Call `i` had an id of its own until event `j` brought its result. */
  predicate Answered(trace: seq<Event>, i: nat, j: nat, status: Status) {
    && i < j < |trace| && trace[i].Call? && trace[i].id.Some? && trace[j] == Result(trace[i].id.value, status)
    && forall k :: i < k < j ==> !Names(trace[k], trace[i].id.value)
  }

  lemma {:induction false} StaysOpen(trace: seq<Event>, i: nat, n: nat, p: Path)
    requires i < n <= |trace| && Asked(trace, i, p) && trace[i].id.Some?
    requires forall k :: i < k < n ==> !Names(trace[k], trace[i].id.value)
    ensures trace[i].id.value in Open(trace, n) && Open(trace, n)[trace[i].id.value] == p
    decreases n
  {
    if n > i + 1 { StaysOpen(trace, i, n - 1, p); }
  }

  lemma AnswerEnds(trace: seq<Event>, i: nat, j: nat, p: Path, status: Status)
    requires Asked(trace, i, p) && Answered(trace, i, j, status)
    ensures Ended(trace, j, p, status)
  {
    StaysOpen(trace, i, j, p);
  }

  /** A spelling with a success is listed; one all of whose calls were answered, each with a refusal, is not. */
  lemma AnsweredSpellings(trace: seq<Event>, p: Path, identity: Identity)
    ensures (exists i, j :: Asked(trace, i, p) && Answered(trace, i, j, Success)) ==>
        p in At(trace, |trace|, identity).changed
    ensures !EverEnded(trace, |trace|, p, Success) &&
            (forall i :: 0 <= i < |trace| && Asked(trace, i, p) ==> exists j :: Answered(trace, i, j, Refused)) ==>
            p !in At(trace, |trace|, identity).changed
  {
    hide Answered, Asked, Ended, At;
    EvidenceIsExact(trace, identity);
    if i, j :| Asked(trace, i, p) && Answered(trace, i, j, Success) {
      AnswerEnds(trace, i, j, p, Success);
      AnsweredBounds(trace, i, j, Success);
      assert EverEnded(trace, |trace|, p, Success);
    }
    if forall i :: 0 <= i < |trace| && Asked(trace, i, p) ==> exists j :: Answered(trace, i, j, Refused) {
      forall i | 0 <= i < |trace| && Asked(trace, i, p)
        ensures EndedBetween(trace, i, |trace|, p, Refused)
      {
        var j :| Answered(trace, i, j, Refused);
        AnswerEnds(trace, i, j, p, Refused);
        AnsweredBounds(trace, i, j, Refused);
      }
    }
  }

  lemma AnsweredBounds(trace: seq<Event>, i: nat, j: nat, status: Status)
    requires Answered(trace, i, j, status)
    ensures i < j < |trace|
  {
  }

  // ---------- the order of results ----------

  lemma TargetsCommute(targets: map<string, Path>, a: string, b: string)
    ensures targets - {a} - {b} == targets - {b} - {a}
    ensures a != b ==> (b in targets - {a} <==> b in targets) && (b in targets ==> (targets - {a})[b] == targets[b])
  {
  }

  lemma SuccessesCommute(s: Evidence, a: Event, b: Event, identity: Identity)
    requires a.Result? && b.Result? && a.callId != b.callId && a.status == Success && b.status == Success
    ensures Apply(Apply(s, a, identity), b, identity) == Apply(Apply(s, b, identity), a, identity)
  {
    TargetsCommute(s.targets, a.callId, b.callId);
    TargetsCommute(s.targets, b.callId, a.callId);
  }

  lemma SuccessAndRefusalCommute(s: Evidence, a: Event, b: Event, identity: Identity)
    requires a.Result? && b.Result? && a.callId != b.callId && a.status == Success && b.status == Refused
    ensures Apply(Apply(s, a, identity), b, identity) == Apply(Apply(s, b, identity), a, identity)
  {
    TargetsCommute(s.targets, a.callId, b.callId);
    TargetsCommute(s.targets, b.callId, a.callId);
  }

  lemma RefusalsCommute(s: Evidence, a: Event, b: Event, identity: Identity)
    requires a.Result? && b.Result? && a.callId != b.callId && a.status == Refused && b.status == Refused
    ensures Apply(Apply(s, a, identity), b, identity) == Apply(Apply(s, b, identity), a, identity)
  {
    TargetsCommute(s.targets, a.callId, b.callId);
    TargetsCommute(s.targets, b.callId, a.callId);
  }

  lemma OthersCommute(s: Evidence, a: Event, b: Event, identity: Identity)
    requires a.Result? && b.Result? && a.callId != b.callId && a.status == OtherStatus
    ensures Apply(Apply(s, a, identity), b, identity) == Apply(Apply(s, b, identity), a, identity)
  {
    TargetsCommute(s.targets, a.callId, b.callId);
    TargetsCommute(s.targets, b.callId, a.callId);
  }

  /** Two results for different calls leave the same evidence in either order. */
  lemma ResultsCommute(s: Evidence, a: Event, b: Event, identity: Identity)
    requires a.Result? && b.Result? && a.callId != b.callId
    ensures Apply(Apply(s, a, identity), b, identity) == Apply(Apply(s, b, identity), a, identity)
  {
    hide Apply;
    match (a.status, b.status)
    case (OtherStatus, _) => OthersCommute(s, a, b, identity);
    case (_, OtherStatus) => OthersCommute(s, b, a, identity);
    case (Success, Success) => SuccessesCommute(s, a, b, identity);
    case (Refused, Refused) => RefusalsCommute(s, a, b, identity);
    case (Success, Refused) => SuccessAndRefusalCommute(s, a, b, identity);
    case (Refused, Success) => SuccessAndRefusalCommute(s, b, a, identity);
  }

  predicate DistinctResults(results: seq<Event>) {
    results != [] ==>
        results[0].Result? && (forall r :: r in results[1..] ==> r.Result? && r.callId != results[0].callId)
            && DistinctResults(results[1..])
  }

  function ApplyAll(s: Evidence, events: seq<Event>, identity: Identity): Evidence
    decreases |events|
  {
    if events == [] then s else ApplyAll(Apply(s, events[0], identity), events[1..], identity)
  }

  function Without(results: seq<Event>, r: Event): seq<Event>
    requires r in results
  {
    if results[0] == r then results[1..] else [results[0]] + Without(results[1..], r)
  }

  lemma {:induction false} WithoutIsPart(results: seq<Event>, r: Event)
    requires r in results
    ensures multiset(Without(results, r)) == multiset(results) - multiset{r} && |Without(results, r)| == |results| - 1
    ensures forall e :: e in Without(results, r) ==> e in results
  {
    assert results == [results[0]] + results[1..];
    if results[0] != r { WithoutIsPart(results[1..], r); }
  }

  lemma {:induction false} WithoutStaysDistinct(results: seq<Event>, r: Event)
    requires r in results && DistinctResults(results)
    ensures DistinctResults(Without(results, r))
  {
    if results[0] != r {
      WithoutStaysDistinct(results[1..], r);
      WithoutIsPart(results[1..], r);
      var rest := Without(results[1..], r);
      assert ([results[0]] + rest)[1..] == rest;
    }
  }

  /** Any of the results may as well have come first. */
  lemma {:induction false} AnyFirst(s: Evidence, results: seq<Event>, r: Event, identity: Identity)
    requires r in results && DistinctResults(results)
    ensures ApplyAll(s, results, identity) == ApplyAll(Apply(s, r, identity), Without(results, r), identity)
    decreases |results|
  {
    hide Apply;
    if results[0] != r {
      var first, rest := results[0], Without(results[1..], r);
      AnyFirst(Apply(s, first, identity), results[1..], r, identity);
      ResultsCommute(s, first, r, identity);
      assert ([first] + rest)[0] == first && ([first] + rest)[1..] == rest;
    }
  }

  /** However the results of different calls are ordered, the evidence they leave is the same. */
  lemma {:induction false} ResultOrderDoesNotMatter(s: Evidence, results: seq<Event>, reordered: seq<Event>,
      identity: Identity)
    requires DistinctResults(results) && DistinctResults(reordered) && multiset(results) == multiset(reordered)
    ensures ApplyAll(s, results, identity) == ApplyAll(s, reordered, identity)
    decreases |results|
  {
    hide Apply, DistinctResults;
    if results == [] {
      assert |multiset(reordered)| == 0;
    } else {
      var r := results[0];
      assert r in multiset(results);
      assert results == [r] + results[1..];
      RestIsDistinct(results);
      WithoutIsPart(reordered, r);
      WithoutStaysDistinct(reordered, r);
      AnyFirst(s, reordered, r, identity);
      ResultOrderDoesNotMatter(Apply(s, r, identity), results[1..], Without(reordered, r), identity);
    }
  }

  lemma RestIsDistinct(results: seq<Event>)
    requires DistinctResults(results) && results != []
    ensures DistinctResults(results[1..])
  {
  }

  // ---------- the evidence as the host keeps it ----------

  class Turn {
    var changedFiles: set<Path>
    var refusedEffects: set<File>
    var unrecordedWrites: bool
    var toolUseWriteTargets: map<string, Path>
    var madeWriteTargets: set<File>
    var madeWritePaths: set<Path>

    ghost function Value(): Evidence
      reads this
    {
      Evidence(changedFiles, refusedEffects, unrecordedWrites, toolUseWriteTargets, madeWriteTargets, madeWritePaths)
    }

    constructor ()
      ensures Value() == EMPTY
    {
      changedFiles, refusedEffects, unrecordedWrites := {}, {}, false;
      toolUseWriteTargets, madeWriteTargets, madeWritePaths := map[], {}, {};
    }

    /** A new turn starts empty, unless it continues the one before. */
    method Begin(preserveEvidence: bool)
      modifies this
      ensures Value() == if preserveEvidence then old(Value()) else EMPTY
    {
      if !preserveEvidence {
        changedFiles, refusedEffects, unrecordedWrites := {}, {}, false;
        toolUseWriteTargets, madeWriteTargets, madeWritePaths := map[], {}, {};
      }
    }

    method RecordToolEvidence(tool: Tool, path: Option<Path>)
      modifies this`changedFiles, this`unrecordedWrites
      ensures Value() == AfterCall(old(Value()), Call(None, tool, path))
    {
      if tool.FileChange? {
        if path.Some? { changedFiles := changedFiles + {path.value}; } else { unrecordedWrites := true; }
        return;
      }
      if tool.Shell? && tool.mutating { unrecordedWrites := true; }
    }

    method SeeCall(id: Option<string>, tool: Tool, path: Option<Path>)
      modifies this
      ensures Value() == AfterCall(old(Value()), Call(id, tool, path))
    {
      RecordToolEvidence(tool, path);
      if id.Some? && tool.FileChange? && path.Some? {
        toolUseWriteTargets := toolUseWriteTargets[id.value := path.value];
      }
    }

    method NoteWriteOutcome(id: string, status: Status, identity: Identity)
      modifies this
      ensures Value() == AfterResult(old(Value()), Result(id, status), identity)
    {
      if id !in toolUseWriteTargets { return; }
      var target := toolUseWriteTargets[id];
      toolUseWriteTargets := toolUseWriteTargets - {id};
      var file := identity(target);
      if status == Success {
        madeWriteTargets := madeWriteTargets + {file};
        madeWritePaths := madeWritePaths + {target};
        changedFiles := changedFiles + {target};
        refusedEffects := refusedEffects - {file};
      } else if status == Refused {
        if target !in madeWritePaths { changedFiles := changedFiles - {target}; }
        if file !in madeWriteTargets { refusedEffects := refusedEffects + {file}; }
      }
    }
  }

  /** A whole turn as the host sees it, event by event. */
  method WatchTurn(trace: seq<Event>, identity: Identity) returns (turn: Turn)
    ensures turn.Value() == At(trace, |trace|, identity)
  {
    turn := new Turn();
    var i := 0;
    while i < |trace|
      invariant 0 <= i <= |trace| && turn.Value() == At(trace, i, identity) && fresh(turn)
    {
      match trace[i] {
        case Call(id, tool, path) => turn.SeeCall(id, tool, path);
        case Result(id, status) => turn.NoteWriteOutcome(id, status, identity);
      }
      i := i + 1;
    }
  }
}
