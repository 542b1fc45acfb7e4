/** Putting a file back: checked, committed by one rename or delete after a last check, and read back. */
module CheckpointRestore {
  import opened Basics
  import opened Checkpoints
  import opened RestoreHost
  import RestorePlan

  datatype RestoreContent = PutAbsent | PutBytes(content: Content)

  datatype Request = Request(target: Path, absolute: bool, physicalTarget: Option<Path>, content: RestoreContent,
    expected: RestorePlan.Expected)

  datatype Overridable = NewerWork | UnsavedEditor | Final

  datatype Problem = NotTrusted | UnknownState | NoTarget | OutsideRoots | LeadsElsewhere | Unsaved | NotReadable
                   | NewerWorkFound | AlreadyGone | HardLink | Moved | ChangedWhileWaiting | NoTemporary | CommitFailed

  datatype Prepared = Prepared(request: Request, physical: Path, observed: Seen, overNewerWork: bool)

  datatype Preparation = Ready(prepared: Prepared) | NotReady(problem: Problem, overridable: Overridable)

  datatype Left = TemporaryLeft(path: Path) | FolderLeft(path: Path)

  datatype Outcome =
    | Restored(digest: Option<Digest>)
    | Refused(problem: Problem, left: seq<Left>)
    | Uncertain(left: seq<Left>)

  /** The same place: by name on most systems, and without case on Windows. */
  predicate SamePhysical(windows: bool, a: Path, b: Path) { a == b || (windows && LowerPath(a) == LowerPath(b)) }

  function LowerPath(p: Path): Path { seq(|p|, i requires 0 <= i < |p| => Lower(p[i])) }

  predicate SameState(a: Seen, b: Seen) {
    if a.Absent? || b.Absent? then a.Absent? && b.Absent?
    else a.File? && b.File? && a.digest == b.digest && a.dev == b.dev && a.ino == b.ino
  }

  /** Two readings of one unchanged file, whatever its links and mode, or two of no file. */
  ghost predicate Unchanged(seen: Seen, was: Seen) {
    || (seen == Absent && was == Absent)
    || (was.File? && exists nlink, mode :: seen == File(was.digest, was.dev, was.ino, nlink, mode))
  }

  lemma SameStateIff(a: Seen, b: Seen)
    ensures SameState(a, b) <==> Unchanged(a, b)
  {
    if SameState(a, b) && a.File? { assert a == File(b.digest, b.dev, b.ino, a.nlink, a.mode); }
  }

  predicate SameButForCase(c: char, d: char) {
    c == d || ('A' <= c <= 'Z' && d as int - c as int == 32) || ('A' <= d <= 'Z' && c as int - d as int == 32)
  }

  /** Two spellings of one path: name by name the same, on Windows but for the case of ASCII letters. */
  ghost predicate OnePlace(windows: bool, a: Path, b: Path) {
    |a| == |b| && forall i :: 0 <= i < |a| ==> OneName(windows, a[i], b[i])
  }

  ghost predicate OneName(windows: bool, a: string, b: string) {
    if windows then |a| == |b| && forall k :: 0 <= k < |a| ==> SameButForCase(a[k], b[k]) else a == b
  }

  lemma SamePhysicalIff(windows: bool, a: Path, b: Path)
    ensures SamePhysical(windows, a, b) <==> OnePlace(windows, a, b)
  {
    hide OneName, Lower;
    assert |LowerPath(a)| == |a| && |LowerPath(b)| == |b|;
    if |a| == |b| {
      forall i | 0 <= i < |a|
        ensures OneName(windows, a[i], b[i]) <==> a[i] == b[i] || (windows && LowerPath(a)[i] == LowerPath(b)[i])
      {
        OneNameIff(windows, a[i], b[i]);
      }
      if i :| 0 <= i < |a| && !OneName(windows, a[i], b[i]) {
        assert a[i] != b[i] && (windows ==> LowerPath(a)[i] != LowerPath(b)[i]);
      } else if windows {
        assert LowerPath(a) == LowerPath(b);
      } else {
        assert a == b;
      }
    }
  }

  lemma OneNameIff(windows: bool, a: string, b: string)
    ensures OneName(windows, a, b) <==> a == b || (windows && Lower(a) == Lower(b))
  {
    LowerIff(a, b);
  }

  lemma LowerIff(a: string, b: string)
    ensures Lower(a) == Lower(b) <==> OneName(true, a, b)
  {
    if |a| == |b| {
      assert Lower(a) == Lower(b) <==> forall k :: 0 <= k < |a| ==> Lower(a)[k] == Lower(b)[k];
      assert forall k :: 0 <= k < |a| ==> (LowerChar(a[k]) == LowerChar(b[k]) <==> SameButForCase(a[k], b[k]));
    } else {
      assert |Lower(a)| != |Lower(b)|;
    }
  }

  // ---------- what the checks find ----------

  /**
   * These events are one whole check that passed: trusted, inside a current root, no unsaved editor, still as
   * prepared.
   */
  ghost predicate Passes(events: seq<Event>, prepared: Prepared, windows: bool) {
    && events != [] && events[|events| - 1].Read? && events[|events| - 1].path == prepared.physical
    && Unchanged(events[|events| - 1].seen, prepared.observed)
    && (exists place ::
          FoundAt(events, prepared.request, place, prepared.overNewerWork, windows)
              && OnePlace(windows, place.at, prepared.physical))
    && OnlyLooks(events)
  }

  /** The target resolved to `place` in one of these roots, which names it. */
  ghost predicate ResolvedIn(roots: seq<Path>, target: Path, place: Place, events: seq<Event>) {
    exists root :: root in roots && Resolved(root, target, Some(place)) in events && Under(root, target)
  }

  ghost predicate Located(events: seq<Event>, request: Request, place: Place, overNewerWork: bool, windows: bool) {
    && Under(place.realRoot, place.at)
    && (request.physicalTarget.Some? ==> OnePlace(windows, place.at, request.physicalTarget.value))
    && (!overNewerWork ==> AskedUnsaved(request.target, false) in events && AskedUnsaved(place.at, false) in events)
  }

  predicate OnlyLooks(events: seq<Event>) { forall e :: e in events ==> Looks(e) }
  predicate NoReads(events: seq<Event>) { forall e :: e in events ==> !e.Read? }

  datatype Location = At(place: Place) | Nowhere(problem: Problem, overridable: Overridable)

  /** Where the restore may act, decided by what the host may do now. */
  ghost function PlaceNow(a: Authority, request: Request, overNewerWork: bool, windows: bool): Location {
    if !a.trusted then Nowhere(NotTrusted, Final)
    else if request.expected.Unknown? && !overNewerWork then Nowhere(UnknownState, NewerWork)
    else if !request.absolute then Nowhere(NoTarget, Final)
    else
      match FirstPlace(a, a.roots, request.target)
      case None => Nowhere(OutsideRoots, Final)
      case Some(place) =>
        if request.physicalTarget.Some? && !OnePlace(windows, place.at, request.physicalTarget.value) then
          Nowhere(LeadsElsewhere, Final)
        else if !overNewerWork && (request.target in a.unsaved || place.at in a.unsaved) then
          Nowhere(Unsaved, UnsavedEditor)
        else At(place)
  }

  function FirstPlace(a: Authority, roots: seq<Path>, target: Path): Option<Place> {
    if roots == [] then None
    else if a.PlaceOf(roots[0], target).Some? then a.PlaceOf(roots[0], target)
    else FirstPlace(a, roots[1..], target)
  }

  /** The first root the target resolves in. */
  method FindPlace(host: Host, roots: seq<Path>, target: Path) returns (place: Option<Place>, ghost events: seq<Event>)
    modifies host
    ensures host.log == old(host.log) + events && OnlyLooks(events) && NoReads(events)
    ensures host.quiet ==> host.disk == old(host.disk) && host.authority == old(host.authority)
    ensures host.quiet && host.reliable ==> place == FirstPlace(old(host.authority), roots, target)
    ensures place.Some? ==> ResolvedIn(roots, target, place.value, events)
    ensures place.Some? ==> Under(place.value.realRoot, place.value.at)
  {
    events := [];
    var i := 0;
    while i < |roots|
      invariant 0 <= i <= |roots| && host.log == old(host.log) + events && OnlyLooks(events) && NoReads(events)
      invariant host.quiet ==> host.disk == old(host.disk) && host.authority == old(host.authority)
      invariant host.quiet && host.reliable ==>
          FirstPlace(old(host.authority), roots, target) == FirstPlace(host.authority, roots[i..], target)
    {
      assert roots[i..][0] == roots[i] && roots[i..][1..] == roots[i + 1..];
      var resolution := host.Resolve(roots[i], target);
      events := events + [Resolved(roots[i], target, resolution)];
      if resolution.Some? {
        InsideIff(roots[i], target);
        InsideIff(resolution.value.realRoot, resolution.value.at);
        return resolution, events;
      }
      i := i + 1;
    }
    return None, events;
  }

  /**
   * Whether an editor holds unsaved changes for either name of the file; the second is asked only if the first has
   * none.
   */
  method AskUnsaved(host: Host, target: Path, at: Path) returns (unsaved: bool, ghost events: seq<Event>)
    modifies host`log
    ensures host.log == old(host.log) + events && OnlyLooks(events) && NoReads(events)
    ensures unsaved == (target in host.authority.unsaved || at in host.authority.unsaved)
    ensures !unsaved ==> AskedUnsaved(target, false) in events && AskedUnsaved(at, false) in events
  {
    unsaved := host.HasUnsavedChanges(target);
    events := [AskedUnsaved(target, unsaved)];
    if !unsaved {
      unsaved := host.HasUnsavedChanges(at);
      events := events + [AskedUnsaved(at, unsaved)];
      assert events[0] == AskedUnsaved(target, false) && events[1] == AskedUnsaved(at, unsaved);
    }
  }

  /**
   * The events show the host is trusted, and where the target was found to lead inside a current root, with no
   * unsaved editor.
   */
  ghost predicate FoundAt(events: seq<Event>, request: Request, place: Place, overNewerWork: bool, windows: bool) {
    && events != [] && events[0] == AskedTrust(true)
    && (exists roots :: AskedRoots(roots) in events && ResolvedIn(roots, request.target, place, events))
    && Located(events, request, place, overNewerWork, windows)
  }

  lemma StillResolved(roots: seq<Path>, target: Path, place: Place, before: seq<Event>, events: seq<Event>,
      after: seq<Event>)
    requires ResolvedIn(roots, target, place, events)
    ensures ResolvedIn(roots, target, place, before + events + after)
  {
    var root :| root in roots && Resolved(root, target, Some(place)) in events && Under(root, target);
    assert Resolved(root, target, Some(place)) in before + events + after;
  }

  lemma FoundInOrder(roots: seq<Path>, tries: seq<Event>, asks: seq<Event>, request: Request, place: Place,
      overNewerWork: bool, windows: bool)
    requires ResolvedIn(roots, request.target, place, tries) && Located(asks, request, place, overNewerWork, windows)
    ensures FoundAt([AskedTrust(true), AskedRoots(roots)] + tries + asks, request, place, overNewerWork, windows)
  {
    hide ResolvedIn, OnePlace;
    var before := [AskedTrust(true), AskedRoots(roots)];
    StillResolved(roots, request.target, place, before, tries, asks);
    assert before[1] in before + tries + asks;
  }

  lemma StillFound(events: seq<Event>, after: seq<Event>, request: Request, place: Place, overNewerWork: bool,
      windows: bool)
    requires FoundAt(events, request, place, overNewerWork, windows)
    ensures FoundAt(events + after, request, place, overNewerWork, windows)
  {
    hide ResolvedIn, OnePlace;
    var roots :| AskedRoots(roots) in events && ResolvedIn(roots, request.target, place, events);
    StillResolved(roots, request.target, place, [], events, after);
    assert [] + events + after == events + after;
    assert AskedRoots(roots) in events + after;
  }

  method Locate(host: Host, request: Request, overNewerWork: bool) returns (r: Location, ghost events: seq<Event>)
    modifies host
    ensures host.log == old(host.log) + events && OnlyLooks(events) && NoReads(events)
    ensures host.quiet ==> host.disk == old(host.disk) && host.authority == old(host.authority)
    ensures host.quiet && host.reliable ==> r == PlaceNow(old(host.authority), request, overNewerWork, host.windows)
    ensures r.At? ==> FoundAt(events, request, r.place, overNewerWork, host.windows)
  {
    hide FoundAt, ResolvedIn, SamePhysical, OnePlace, FirstPlace;
    var trusted := host.IsTrusted();
    events := [AskedTrust(trusted)];
    if !trusted { return Nowhere(NotTrusted, Final), events; }
    if request.expected.Unknown? && !overNewerWork { return Nowhere(UnknownState, NewerWork), events; }
    if !request.absolute { return Nowhere(NoTarget, Final), events; }
    var roots := host.WriteRoots();
    var place, tries := FindPlace(host, roots, request.target);
    events := [AskedTrust(true), AskedRoots(roots)] + tries;
    assert host.log == old(host.log) + events;
    if place == None { return Nowhere(OutsideRoots, Final), events; }
    if request.physicalTarget.Some? {
      SamePhysicalIff(host.windows, place.value.at, request.physicalTarget.value);
    }
    if request.physicalTarget.Some? && !SamePhysical(host.windows, place.value.at, request.physicalTarget.value) {
      return Nowhere(LeadsElsewhere, Final), events;
    }
    ghost var asks := [];
    if !overNewerWork {
      var unsaved;
      unsaved, asks := AskUnsaved(host, request.target, place.value.at);
      events := events + asks;
      if unsaved { return Nowhere(Unsaved, UnsavedEditor), events; }
    }
    FoundInOrder(roots, tries, asks, request, place.value, overNewerWork, host.windows);
    events := [AskedTrust(true), AskedRoots(roots)] + tries + asks;
    return At(place.value), events;
  }

  // ---------- preparation ----------

  function ExpectationProblem(request: Request, observed: Seen, overNewerWork: bool): Option<(Problem, Overridable)> {
    if request.expected.Unknown? && !overNewerWork then Some((UnknownState, NewerWork))
    else if !AsExpected(request.expected, observed) && !overNewerWork then Some((NewerWorkFound, NewerWork))
    else if request.content.PutAbsent? && observed.Absent? then Some((AlreadyGone, Final))
    else if request.content.PutBytes? && observed.File? && observed.nlink > 1 then Some((HardLink, Final))
    else None
  }

  predicate AsExpected(expected: RestorePlan.Expected, observed: Seen) {
    match expected
    case ExpectAbsent => observed.Absent?
    case ExpectBytes(digest) => observed.File? && observed.digest == digest
    case Unknown(_) => false
  }

  /** The reading is what the plan expects; an unknown expectation is met by nothing. */
  ghost predicate Meets(expected: RestorePlan.Expected, seen: Seen) {
    || (seen == Absent && expected == RestorePlan.ExpectAbsent)
    || (seen.File? && expected == RestorePlan.ExpectBytes(seen.digest))
  }

  /** The file may be put back over this reading: nobody's newer work is in the way, or the person overrode that. */
  ghost predicate MayPutBack(request: Request, seen: Seen, overNewerWork: bool) {
    && (overNewerWork || Meets(request.expected, seen))
    && !(request.content == PutAbsent && seen == Absent)
    && !(request.content.PutBytes? && seen.File? && seen.nlink > 1)
  }

  /** Only newer work may be overridden: a file that is already gone or has another name stays as it is. */
  lemma ExpectationProblemIs(request: Request, seen: Seen, overNewerWork: bool)
    ensures var problem := ExpectationProblem(request, seen, overNewerWork);
      && (problem == None <==> MayPutBack(request, seen, overNewerWork))
      && (problem.Some? ==> (problem.value.1 == NewerWork <==> !overNewerWork && !Meets(request.expected, seen)))
      && (problem.Some? && problem.value.1 != NewerWork ==>
            problem.value == (if seen == Absent then (AlreadyGone, Final) else (HardLink, Final)))
  {
  }

  /** What a prepared restore promises of the file it found. */
  ghost predicate WellPrepared(p: Prepared) {
    && p.physical != [] && p.observed != Unreadable
    && (p.overNewerWork || Meets(p.request.expected, p.observed))
    && (p.request.content.PutAbsent? ==> p.observed.File?)
    && (p.request.content.PutBytes? && p.observed.File? ==> p.observed.nlink <= 1)
  }

  method Prepare(host: Host, request: Request, overNewerWork: bool) returns (r: Preparation, ghost events: seq<Event>)
    modifies host
    ensures host.log == old(host.log) + events && OnlyLooks(events)
    ensures host.quiet ==> host.disk == old(host.disk) && host.authority == old(host.authority)
    ensures r.Ready? ==>
        r.prepared.request == request && r.prepared.overNewerWork == overNewerWork && WellPrepared(r.prepared)
    ensures r.Ready? ==> Passes(events, r.prepared, host.windows)
    ensures host.quiet && host.reliable ==>
              (r.Ready? <==>
                && PlaceNow(host.authority, request, overNewerWork, host.windows).At?
                && var seen := Sight(host.disk,
                    PlaceNow(host.authority, request, overNewerWork, host.windows).place.at);
                   seen != Unreadable && MayPutBack(request, seen, overNewerWork))
    ensures host.quiet && host.reliable && r.Ready? ==>
              && PlaceNow(host.authority, request, overNewerWork, host.windows).At?
              && r.prepared.physical == PlaceNow(host.authority, request, overNewerWork, host.windows).place.at
              && r.prepared.observed == Sight(host.disk, r.prepared.physical)
  {
    var located, looks := Locate(host, request, overNewerWork);
    events := looks;
    if located.Nowhere? { return NotReady(located.problem, located.overridable), events; }
    var physical := located.place.at;
    var observed := host.ReadTargetState(physical);
    events := events + [Read(physical, observed)];
    if observed == Unreadable { return NotReady(NotReadable, Final), events; }
    var mismatch := ExpectationProblem(request, observed, overNewerWork);
    ExpectationProblemIs(request, observed, overNewerWork);
    if mismatch.Some? { return NotReady(mismatch.value.0, mismatch.value.1), events; }
    r := Ready(Prepared(request, physical, observed, overNewerWork));
    StillFound(looks, [Read(physical, observed)], request, located.place, overNewerWork, host.windows);
  }

  /**
   * A whole passed check, spelled out: the host was trusted; under one of its roots the target resolved to a place
   * under the real root, which is the prepared one and the one recorded; no editor held it unsaved unless overridden;
   * and the last reading found no file where none was, or the digest, device and inode that were observed.
   */
  lemma PassesMeans(events: seq<Event>, prepared: Prepared, windows: bool)
    requires Passes(events, prepared, windows)
    ensures events[0] == AskedTrust(true)
    ensures exists roots, root, realRoot, at ::
              && AskedRoots(roots) in events && root in roots
              && Resolved(root, prepared.request.target, Some(Place(realRoot, at))) in events
              && Under(root, prepared.request.target) && Under(realRoot, at) && OnePlace(windows, at, prepared.physical)
              && (prepared.request.physicalTarget.Some? ==>
                    OnePlace(windows, at, prepared.request.physicalTarget.value))
              && (!prepared.overNewerWork ==>
                    AskedUnsaved(prepared.request.target, false) in events && AskedUnsaved(at, false) in events)
    ensures var last, was := events[|events| - 1], prepared.observed;
      && last.Read? && last.path == prepared.physical
      && if last.seen == Absent then was == Absent
         else
           && last.seen.File? && was.File?
           && last.seen.digest == was.digest && last.seen.dev == was.dev && last.seen.ino == was.ino
  {
    hide OnePlace, Under;
    var place :| FoundAt(events, prepared.request, place, prepared.overNewerWork, windows)
              && OnePlace(windows, place.at, prepared.physical);
    var roots :| AskedRoots(roots) in events && ResolvedIn(roots, prepared.request.target, place, events);
    var root :| root in roots && Resolved(root, prepared.request.target, Some(place)) in events
              && Under(root, prepared.request.target);
    assert place == Place(place.realRoot, place.at);
  }

  // ---------- the checks before a commit ----------

  method StillAsPrepared(host: Host, prepared: Prepared) returns (r: Option<Problem>, ghost events: seq<Event>)
    modifies host
    ensures host.log == old(host.log) + events && OnlyLooks(events)
    ensures host.quiet ==> host.disk == old(host.disk) && host.authority == old(host.authority)
    ensures r == None ==> Passes(events, prepared, host.windows)
    ensures events != [] && events[|events| - 1].Read? ==>
        (r == None <==> Unchanged(events[|events| - 1].seen, prepared.observed))
    ensures host.quiet && host.reliable ==>
        (r == None <==> AsPreparedNow(host.disk, host.authority, prepared, host.windows))
  {
    hide FoundAt, PlaceNow, SamePhysical, OnePlace, SameState;
    var located, looks := Locate(host, prepared.request, prepared.overNewerWork);
    events := looks;
    if located.Nowhere? { return Some(located.problem), events; }
    SamePhysicalIff(host.windows, located.place.at, prepared.physical);
    if !SamePhysical(host.windows, located.place.at, prepared.physical) { return Some(Moved), events; }
    var now := host.ReadTargetState(prepared.physical);
    events := events + [Read(prepared.physical, now)];
    if now == Unreadable { return Some(NotReadable), events; }
    StillFound(looks, [Read(prepared.physical, now)], prepared.request, located.place, prepared.overNewerWork,
        host.windows);
    SameStateIff(now, prepared.observed);
    r := if SameState(now, prepared.observed) then None else Some(ChangedWhileWaiting);
  }

  ghost predicate AsPreparedNow(disk: Disk, a: Authority, prepared: Prepared, windows: bool) {
    var place := PlaceNow(a, prepared.request, prepared.overNewerWork, windows);
    && place.At? && OnePlace(windows, place.place.at, prepared.physical)
    && Unchanged(Sight(disk, prepared.physical), prepared.observed)
  }
}
