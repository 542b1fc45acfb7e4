/** The commit of a prepared restore, and what it may claim about what it did. */
module RestoreCommit {
  import opened Basics
  import opened Checkpoints
  import opened RestoreHost
  import opened CheckpointRestore

  // ---------- what a commit leaves in its log ----------

  /** The name of a temporary file beside the target, for the random part it was given. */
  function TemporaryOf(physical: Path, random: string): (t: Path)
    requires physical != []
    ensures t != physical && |t| == |physical| && Directory(t) == Directory(physical)
  {
    var name := "." + Name(physical) + "." + random + ".unode-restore";
    assert |name| != |Name(physical)|;
    Directory(physical) + [name]
  }

  ghost predicate Beside(t: Path, physical: Path) {
    physical != [] && exists random :: t == TemporaryOf(physical, random)
  }

  lemma BesideIts(physical: Path, random: string)
    requires physical != []
    ensures Beside(TemporaryOf(physical, random), physical)
  {
  }

  /**
   * The events of one commit: what led up to its last check, that check, the act and its read-back, and the tidying.
   */
  datatype Trace = Trace(setup: seq<Event>, check: seq<Event>, act: seq<Event>, cleanup: seq<Event>) {
    function All(): seq<Event> { setup + check + act + cleanup }
  }

  function Wanted(content: RestoreContent): Option<Digest> {
    if content.PutAbsent? then None else Some(Sha256(content.content))
  }

  predicate SeesWanted(seen: Seen, content: RestoreContent) {
    if content.PutAbsent? then seen.Absent? else seen.File? && seen.digest == Sha256(content.content)
  }

  /** The one act of a commit: a delete of the target, or the rename of its own finished temporary file onto it. */
  ghost predicate IsAct(e: Event, setup: seq<Event>, prepared: Prepared) {
    if prepared.request.content.PutAbsent? then e.Unlinked? && e.path == prepared.physical
    else
      && e.Renamed? && e.to == prepared.physical
      && Beside(e.from, prepared.physical) && WroteTemporary(e.from, true) in setup
  }

  predicate Succeeded(e: Event) { (e.Renamed? && e.ok) || (e.Unlinked? && e.ok) }

  ghost predicate SetsUp(setup: seq<Event>, physical: Path) {
    forall e :: e in setup ==>
      || Looks(e)
      || (e.MadeFolders? && e.path == Directory(physical))
      || (e.WroteTemporary? && Beside(e.path, physical))
  }

  /**
   * Tidying touches only the commit's own temporary file and, after a refusal, folders on the path from the first one
   * it made.
   */
  ghost predicate Tidies(cleanup: seq<Event>, setup: seq<Event>, physical: Path, refused: bool) {
    forall e :: e in cleanup ==>
      || (e.RemovedTemporary? && exists ok :: WroteTemporary(e.path, ok) in setup)
      || (e.RemovedFolder? && (e.ok ==> e.empty) && refused && exists first ::
            MadeFolders(Directory(physical), Some(first)) in setup && InsideOrEqual(first, e.path)
                && InsideOrEqual(e.path, Directory(physical)))
  }

  /** The outcome says what the last reading after the act found; without an act it is a refusal. */
  ghost predicate Acts(act: seq<Event>, setup: seq<Event>, check: seq<Event>, prepared: Prepared, outcome: Outcome,
      windows: bool)
  {
    if act == [] then outcome.Refused?
    else
      && Passes(check, prepared, windows)
      && |act| == 2 && IsAct(act[0], setup, prepared) && act[1].Read? && act[1].path == prepared.physical
      && match outcome
         case Restored(digest) =>
           Succeeded(act[0]) && digest == Wanted(prepared.request.content)
               && SeesWanted(act[1].seen, prepared.request.content)
         case Refused(_, _) => !Succeeded(act[0]) && Unchanged(act[1].seen, prepared.observed)
         case Uncertain(_) =>
           if Succeeded(act[0]) then !SeesWanted(act[1].seen, prepared.request.content)
           else !Unchanged(act[1].seen, prepared.observed)
  }

  ghost predicate Honest(trace: Trace, prepared: Prepared, outcome: Outcome, windows: bool) {
    && SetsUp(trace.setup, prepared.physical)
    && Acts(trace.act, trace.setup, trace.check, prepared, outcome, windows)
    && OnlyLooks(trace.check)
    && Tidies(trace.cleanup, trace.setup, prepared.physical, outcome.Refused?)
  }

  // ---------- what an undisturbed commit leaves on disk ----------

  predicate Agree(a: Disk, b: Disk, p: Path) { (p in a <==> p in b) && (p in a ==> a[p] == b[p]) }

  /** Apart from the target and a temporary file beside it, at most new folders on the way to the target. */
  ghost predicate Frame(before: Disk, after: Disk, physical: Path) {
    forall p :: p != physical && !Beside(p, physical) ==>
      if p in before then p in after && after[p] == before[p]
      else p in after ==> after[p] == Folder && Inside(p, physical)
  }

  function Made(before: Disk, physical: Path): Disk { WithFolders(before, Directory(physical), |Directory(physical)|) }

  ghost predicate Effect(before: Disk, after: Disk, prepared: Prepared, outcome: Outcome, windows: bool) {
    var physical := prepared.physical;
    && Frame(before, after, physical)
    && match outcome
       case Restored(_) =>
         if prepared.request.content.PutAbsent? then after == before - {physical}
         else
           && physical in after && after == Made(before, physical)[physical := after[physical]]
           && after[physical].Regular? && after[physical].content == prepared.request.content.content
           && (prepared.observed.File? && !windows ==> after[physical].mode == prepared.observed.mode % 512)
       case Refused(_, left) =>
         && Agree(before, after, physical)
         && (left == [] ==> after == before || exists t :: Beside(t, physical) && t in before && after == before - {t})
       case Uncertain(_) => true
  }

  // ---------- what a refusal leaves ----------

  /** The temporary files a setup tried to write. */
  function Temporaries(setup: seq<Event>): set<Path> { set e | e in setup && e.WroteTemporary? :: e.path }

  /**
   * A refusal with nothing left behind takes from the disk what had the name of the temporary file, and nothing else:
   * the disk is as it was if and only if that name was free.
   */
  ghost predicate Undoes(before: Disk, after: Disk, outcome: Outcome, setup: seq<Event>) {
    outcome.Refused? && outcome.left == [] ==>
      && after == before - Temporaries(setup)
      && (after == before <==> forall t :: t in Temporaries(setup) ==> t !in before)
  }

  lemma TakesTemporaries(before: Disk, after: Disk, outcome: Outcome, setup: seq<Event>)
    requires after == before - Temporaries(setup)
    ensures Undoes(before, after, outcome, setup)
  {
    hide Temporaries;
    if t :| t in Temporaries(setup) && t in before {
      assert t !in after;
    } else {
      assert after == before;
    }
  }

  lemma LooksWriteNothing(looks: seq<Event>, setup: seq<Event>)
    requires OnlyLooks(looks)
    ensures Temporaries(looks) == {} && Temporaries(looks + setup) == Temporaries(setup)
  {
    assert forall e :: e in looks ==> Looks(e);
  }

  // ---------- the pieces ----------

  /** What to report of an act that failed: a refusal if a new reading finds the prepared state, else uncertainty. */
  method FailedEffect(host: Host, prepared: Prepared) returns (outcome: Outcome, seen: Seen)
    modifies host
    ensures host.log == old(host.log) + [Read(prepared.physical, seen)]
    ensures host.quiet ==> host.disk == old(host.disk) && host.authority == old(host.authority)
    ensures outcome == if Unchanged(seen, prepared.observed) then Refused(CommitFailed, []) else Uncertain([])
  {
    seen := host.ReadTargetState(prepared.physical);
    SameStateIff(seen, prepared.observed);
    outcome := if SameState(seen, prepared.observed) then Refused(CommitFailed, []) else Uncertain([]);
  }

  method DeleteTarget(host: Host, prepared: Prepared) returns (outcome: Outcome, ghost trace: Trace)
    requires WellPrepared(prepared) && prepared.request.content.PutAbsent?
    modifies host
    ensures host.log == old(host.log) + trace.All() && Honest(trace, prepared, outcome, host.windows)
    ensures host.quiet ==> Effect(old(host.disk), host.disk, prepared, outcome, host.windows)
    ensures host.quiet ==> Undoes(old(host.disk), host.disk, outcome, trace.setup)
    ensures host.quiet && host.reliable ==>
              AsPreparedNow(old(host.disk), old(host.authority), prepared, host.windows) ==> outcome.Restored?
  {
    hide Passes, AsPreparedNow, Meets, Unchanged, Temporaries, Undoes, Acts, Effect, Honest;
    ghost var before := host.disk;
    host.Wait();
    var problem, check := StillAsPrepared(host, prepared);
    if problem.Some? {
      outcome, trace := Refused(problem.value, []), Trace(check, [], [], []);
      NothingDone(check, prepared, outcome, host.windows);
      if host.quiet { Untouched(before, prepared, outcome, check, host.windows); }
      return;
    }
    if host.quiet && AsPreparedNow(before, host.authority, prepared, host.windows) {
      PreparedIsThere(before, host.authority, prepared, host.windows);
    }
    var ok, after;
    outcome, ok, after := Delete(host, prepared);
    trace := Trace([], check, [Unlinked(prepared.physical, ok), Read(prepared.physical, after)], []);
    DeleteIsHonest(prepared, check, ok, after, outcome, host.windows);
    if host.quiet { DeleteEffect(before, host.disk, prepared, ok, outcome, host.windows); }
  }

  predicate IsRegular(disk: Disk, p: Path) { p in disk && disk[p].Regular? }

  /** The delete and its read-back. */
  method Delete(host: Host, prepared: Prepared) returns (outcome: Outcome, ok: bool, after: Seen)
    modifies host
    ensures host.log == old(host.log) + [Unlinked(prepared.physical, ok)] + [Read(prepared.physical, after)]
    ensures outcome == if ok then if after.Absent? then Outcome.Restored(None) else Uncertain([])
                       else if Unchanged(after, prepared.observed) then Refused(CommitFailed, []) else Uncertain([])
    ensures host.quiet ==> host.disk == if ok then old(host.disk) - {prepared.physical} else old(host.disk)
    ensures host.quiet && host.reliable && IsRegular(old(host.disk), prepared.physical) ==> outcome.Restored?
  {
    hide Unchanged;
    ok := host.Unlink(prepared.physical);
    if !ok {
      outcome, after := FailedEffect(host, prepared);
    } else {
      host.Wait();
      after := host.ReadTargetState(prepared.physical);
      outcome := if after.Absent? then Outcome.Restored(None) else Uncertain([]);
    }
  }

  lemma Untouched(disk: Disk, prepared: Prepared, outcome: Outcome, looks: seq<Event>, windows: bool)
    requires outcome.Refused? && OnlyLooks(looks)
    ensures Effect(disk, disk, prepared, outcome, windows) && Undoes(disk, disk, outcome, looks)
  {
    NoEffect(disk, prepared, outcome, windows);
    LooksWriteNothing(looks, []);
    TakesTemporaries(disk, disk, outcome, looks);
  }

  lemma DeleteIsHonest(prepared: Prepared, check: seq<Event>, ok: bool, seen: Seen, outcome: Outcome, windows: bool)
    requires prepared.request.content.PutAbsent? && Passes(check, prepared, windows) && OnlyLooks(check)
    requires outcome == if ok then if seen.Absent? then Outcome.Restored(None) else Uncertain([])
                        else if Unchanged(seen, prepared.observed) then Refused(CommitFailed, []) else Uncertain([])
    ensures var trace := Trace([], check, [Unlinked(prepared.physical, ok), Read(prepared.physical, seen)], []);
      && Honest(trace, prepared, outcome, windows)
      && trace.All() == check + [Unlinked(prepared.physical, ok)] + [Read(prepared.physical, seen)]
  {
    hide Passes, Unchanged;
  }

  /** A delete that went through, or one that failed and left the disk alone. */
  lemma DeleteEffect(before: Disk, after: Disk, prepared: Prepared, ok: bool, outcome: Outcome, windows: bool)
    requires prepared.request.content.PutAbsent?
    requires after == if ok then before - {prepared.physical} else before
    requires if ok then !outcome.Refused? else !outcome.Restored?
    ensures Effect(before, after, prepared, outcome, windows) && Undoes(before, after, outcome, [])
  {
    if outcome.Refused? { Untouched(before, prepared, outcome, [], windows); }
  }

  lemma PreparedIsThere(disk: Disk, a: Authority, prepared: Prepared, windows: bool)
    requires WellPrepared(prepared) && prepared.request.content.PutAbsent?
    requires AsPreparedNow(disk, a, prepared, windows)
    ensures prepared.physical in disk && disk[prepared.physical].Regular?
  {
    hide PlaceNow, OnePlace, Meets;
  }

  /** An undisturbed commit before its rename: the folders it made, and its temporary file if it got that far. */
  ghost predicate Halfway(before: Disk, now: Disk, physical: Path, temporary: Option<Path>, created: Option<Path>) {
    var dir := Directory(physical);
    var made := if created.Some? then Made(before, physical) else before;
    && (created.Some? ==> created.value !in before && forall k :: 0 < k < |created.value| && k <= |dir| ==>
        dir[..k] in before)
    && match temporary
       case None => now == made
       case Some(t) => now - {t} == made - {t} && (t in before ==> now == made)
  }

  predicate OnPath(created: Option<Path>, dir: Path) {
    created.Some? ==> 0 < |created.value| <= |dir| && created.value == dir[..|created.value|]
  }

  /** What an attempt left to tidy was in its setup. */
  ghost predicate FromSetup(setup: seq<Event>, physical: Path, temporary: Option<Path>, created: Option<Path>) {
    && (temporary.Some? ==>
        Beside(temporary.value, physical) && exists ok :: WroteTemporary(temporary.value, ok) in setup)
    && (created.Some? ==> MadeFolders(Directory(physical), created) in setup)
    && OnPath(created, Directory(physical))
  }

  lemma SetupOfCopy(physical: Path, created: Option<Path>, t: Path, ok: bool)
    requires physical != [] && Beside(t, physical) && OnPath(created, Directory(physical))
    ensures var setup := [MadeFolders(Directory(physical), created), WroteTemporary(t, ok)];
      && SetsUp(setup, physical) && FromSetup(setup, physical, Some(t), created)
      && Temporaries(setup) == {t} && WroteTemporary(t, ok) in setup
  {
    hide Beside;
    var setup := [MadeFolders(Directory(physical), created), WroteTemporary(t, ok)];
    assert setup[0] in setup && setup[1] in setup;
  }

  lemma SetupWithoutCopy(physical: Path)
    ensures var setup := [MadeFolders(Directory(physical), None)];
      SetsUp(setup, physical) && FromSetup(setup, physical, None, None) && Temporaries(setup) == {}
  {
  }

  lemma CopyIsHalfway(before: Disk, made: Disk, now: Disk, physical: Path, t: Path, created: Option<Path>)
    requires made == Made(before, physical) && (created == None ==> made == before)
    requires created.Some? ==> created.value !in before
    requires created.Some? ==> forall k :: 0 < k < |created.value| && k <= |Directory(physical)| ==>
        Directory(physical)[..k] in before
    requires now - {t} == made - {t} && (t in made ==> now == made)
    ensures Halfway(before, now, physical, Some(t), created)
  {
    WithFoldersFrame(before, Directory(physical), |Directory(physical)|, t);
  }

  /** Where only folders lie on the way, the copy has its folder, and its name is free unless it was taken before. */
  lemma NameFreeOrTaken(before: Disk, physical: Path, t: Path)
    requires physical != [] && Beside(t, physical) && MayMake(before, physical)
    ensures var made, dir := Made(before, physical), Directory(physical);
      Directory(t) == dir && dir in made && made[dir].Folder? && (t in made ==> NameTaken(before, physical))
  {
    var dir := Directory(physical);
    assert dir[..|dir|] == dir;
    WithFoldersFrame(before, dir, |dir|, t);
    WithFoldersFrame(before, dir, |dir|, dir);
  }

  lemma NothingHalfway(disk: Disk, physical: Path)
    ensures Halfway(disk, disk, physical, None, None)
  {
  }

  lemma OnlyFolders(disk: Disk, physical: Path)
    requires MayMake(disk, physical)
    ensures var dir := Directory(physical);
      forall k :: 0 <= k <= |dir| && dir[..k] in disk ==> disk[dir[..k]].Folder?
  {
  }

  method WriteCopy(host: Host, prepared: Prepared, content: Content)
      returns (ok: bool, temporary: Option<Path>, created: Option<Path>, ghost setup: seq<Event>)
    requires prepared.physical != []
    modifies host
    ensures host.log == old(host.log) + setup && SetsUp(setup, prepared.physical)
    ensures FromSetup(setup, prepared.physical, temporary, created)
    ensures Temporaries(setup) == if temporary == None then {} else {temporary.value}
    ensures ok ==> temporary.Some? && WroteTemporary(temporary.value, true) in setup
    ensures host.quiet ==> host.authority == old(host.authority)
    ensures host.quiet ==> Halfway(old(host.disk), host.disk, prepared.physical, temporary, created)
    ensures host.quiet && ok ==>
              && var disk, t := host.disk, temporary.value;
              && t in disk && t !in Made(old(host.disk), prepared.physical) && disk[t].Regular?
                  && disk[t].content == content
              && disk - {t} == Made(old(host.disk), prepared.physical)
              && (prepared.observed.File? && !host.windows ==> disk[t].mode == prepared.observed.mode % 512)
    ensures host.quiet && host.reliable && MayMake(old(host.disk), prepared.physical) ==>
        ok || NameTaken(old(host.disk), prepared.physical)
    ensures ok ==> temporary.value != prepared.physical
  {
    hide WithFolders, SetsUp, FromSetup, Temporaries, Halfway, Beside, NameTaken, MayMake;
    var physical := prepared.physical;
    var dir := Directory(physical);
    ghost var before := host.disk;
    var made, first := host.MakeFolders(dir);
    setup := [MadeFolders(dir, first)];
    if !made {
      SetupWithoutCopy(physical);
      if host.quiet { NothingHalfway(before, physical); }
      if MayMake(before, physical) { OnlyFolders(before, physical); }
      return false, None, None, setup;
    }
    created := first;
    var random: string := *;
    var t := TemporaryOf(physical, random);
    BesideIts(physical, random);
    ghost var between := host.disk;
    temporary := Some(t);
    var mode := if prepared.observed.File? && !host.windows then Some(prepared.observed.mode % 512) else None;
    ok := host.WriteTemporary(t, content, mode);
    SetupOfCopy(physical, created, t, ok);
    setup := [MadeFolders(dir, first), WroteTemporary(t, ok)];
    assert host.log == old(host.log) + setup;
    if host.quiet {
      CopyIsHalfway(before, between, host.disk, physical, t, created);
      if ok { assert host.disk - {t} == between - {t} == between; }
      if MayMake(before, physical) { NameFreeOrTaken(before, physical, t); }
    }
  }

  /** Nothing but folders is in the way. */
  predicate MayMake(disk: Disk, physical: Path) {
    var dir := Directory(physical);
    (forall k :: 0 <= k <= |dir| && dir[..k] in disk ==> disk[dir[..k]].Folder?) && [] in disk
  }

  /** The host allows it, the target is as prepared, and only folders lie on the way to it. */
  ghost predicate GoesThrough(disk: Disk, a: Authority, prepared: Prepared, windows: bool) {
    && AsPreparedNow(disk, a, prepared, windows) && MayMake(disk, prepared.physical)
    && (prepared.physical in disk ==> disk[prepared.physical].Regular?)
  }

  ghost predicate NameTaken(disk: Disk, physical: Path) { exists t :: Beside(t, physical) && t in disk }

  lemma HalfwayFrame(before: Disk, now: Disk, physical: Path, temporary: Option<Path>, created: Option<Path>)
    requires physical != [] && Halfway(before, now, physical, temporary, created)
    requires temporary.Some? ==> Beside(temporary.value, physical)
    ensures Frame(before, now, physical) && Agree(before, now, physical)
  {
    var dir := Directory(physical);
    forall p | p == physical || !Beside(p, physical)
      ensures if p in before then p in now && now[p] == before[p] else p in now ==>
          now[p] == Folder && Inside(p, physical)
    {
      WithFoldersFrame(before, dir, |dir|, p);
      if temporary.Some? { assert p != temporary.value; assert p in now <==> p in now - {temporary.value}; }
    }
  }

  /** A finished copy waits beside the target, and nothing else was made but folders. */
  predicate CopyReady(before: Disk, now: Disk, prepared: Prepared, content: Content, t: Path, windows: bool)
    requires prepared.physical != []
  {
    && t in now && now - {t} == Made(before, prepared.physical)
    && now[t].Regular? && now[t].content == content
    && (prepared.observed.File? && !windows ==> now[t].mode == prepared.observed.mode % 512)
  }

  /** The last check, the rename and its read-back. */
  method CommitCopy(host: Host, prepared: Prepared, content: Content, t: Path, ghost before: Disk,
      ghost setup: seq<Event>)
      returns (outcome: Outcome, renamed: bool, ghost check: seq<Event>, ghost act: seq<Event>)
    requires WellPrepared(prepared) && prepared.request.content == PutBytes(content)
    requires Beside(t, prepared.physical) && t != prepared.physical && WroteTemporary(t, true) in setup
    requires host.quiet ==>
        CopyReady(before, host.disk, prepared, content, t, host.windows) && Frame(before, host.disk, prepared.physical)
    modifies host
    ensures host.log == old(host.log) + check + act && OnlyLooks(check)
    ensures Acts(act, setup, check, prepared, outcome, host.windows)
    ensures renamed || !outcome.Restored?
    ensures renamed ==> !outcome.Refused?
    ensures outcome.Refused? ==> outcome.left == []
    ensures outcome.Uncertain? ==> outcome.left == []
    ensures host.quiet && outcome.Restored? ==> Effect(before, host.disk, prepared, outcome, host.windows)
    ensures host.quiet && outcome.Uncertain? ==> Frame(before, host.disk, prepared.physical)
    ensures host.quiet && outcome.Refused? ==> host.disk == old(host.disk)
    ensures host.quiet && host.reliable && GoesThrough(old(host.disk), old(host.authority), prepared, host.windows) ==>
              outcome.Restored?
  {
    hide Passes, WithFolders, PlaceNow, OnePlace, Meets, Frame, AsPreparedNow;
    var physical := prepared.physical;
    var problem;
    problem, check := StillAsPrepared(host, prepared);
    if problem.Some? { return Refused(problem.value, []), false, check, []; }
    renamed := host.Rename(t, physical);
    if !renamed {
      var seen;
      outcome, seen := FailedEffect(host, prepared);
      return outcome, false, check, [Renamed(t, physical, false), Read(physical, seen)];
    }
    if host.quiet { RenamedFrame(before, host.disk, physical, t); }
    host.Wait();
    var after := host.ReadTargetState(physical);
    act := [Renamed(t, physical, true), Read(physical, after)];
    outcome := if after.File? && after.digest == Sha256(content) then Outcome.Restored(Some(Sha256(content)))
        else Uncertain([]);
  }

  /** Preparing the copy, then the commit. */
  method Attempt(host: Host, prepared: Prepared, content: Content)
      returns (outcome: Outcome, temporary: Option<Path>, created: Option<Path>, ghost trace: Trace)
    requires WellPrepared(prepared) && prepared.request.content == PutBytes(content)
    modifies host
    ensures host.log == old(host.log) + trace.All() && trace.cleanup == []
        && Honest(trace, prepared, outcome, host.windows)
    ensures FromSetup(trace.setup, prepared.physical, temporary, created)
    ensures outcome.Refused? ==> Temporaries(trace.setup) == if temporary == None then {} else {temporary.value}
    ensures outcome.Restored? ==> temporary == None
    ensures outcome.Refused? ==> outcome.left == []
    ensures outcome.Uncertain? ==> outcome.left == []
    ensures host.quiet && outcome.Restored? ==> Effect(old(host.disk), host.disk, prepared, outcome, host.windows)
    ensures host.quiet && outcome.Uncertain? ==> Frame(old(host.disk), host.disk, prepared.physical)
    ensures host.quiet && outcome.Refused? ==> Halfway(old(host.disk), host.disk, prepared.physical, temporary, created)
    ensures host.quiet && host.reliable && GoesThrough(old(host.disk), old(host.authority), prepared, host.windows) ==>
              outcome.Restored? || NameTaken(old(host.disk), prepared.physical)
  {
    hide Passes, WithFolders, AsPreparedNow, Meets, Effect, Frame, Acts, Halfway, Beside, Temporaries;
    var physical := prepared.physical;
    ghost var before := host.disk;
    var ok;
    ghost var setup;
    ok, temporary, created, setup := WriteCopy(host, prepared, content);
    if host.quiet { HalfwayFrame(before, host.disk, physical, temporary, created); }
    if !ok {
      outcome := Refused(NoTemporary, []);
      trace := Trace(setup, [], [], []);
      NoAct(setup, [], prepared, outcome, host.windows);
      return;
    }
    if host.quiet {
      StaysAsPrepared(before, host.disk, host.authority, prepared, host.windows);
      if MayMake(before, physical) { StillMayMake(before, host.disk, physical, temporary.value); }
    }
    host.Wait();
    var renamed;
    ghost var check, act;
    outcome, renamed, check, act := CommitCopy(host, prepared, content, temporary.value, before, setup);
    trace := Trace(setup, check, act, []);
    if renamed { temporary := None; }
  }

  lemma StillMayMake(before: Disk, now: Disk, physical: Path, t: Path)
    requires physical != [] && Beside(t, physical) && MayMake(before, physical) && now - {t} == Made(before, physical)
    ensures MayMake(now, physical)
  {
    var dir := Directory(physical);
    forall k | 0 <= k <= |dir| && dir[..k] in now
      ensures now[dir[..k]].Folder?
    {
      WithFoldersFrame(before, dir, |dir|, dir[..k]);
      assert dir[..k] in now - {t};
    }
    WithFoldersFrame(before, dir, |dir|, []);
    assert [] in now - {t};
  }

  lemma NoAct(setup: seq<Event>, check: seq<Event>, prepared: Prepared, outcome: Outcome, windows: bool)
    requires outcome.Refused?
    ensures Acts([], setup, check, prepared, outcome, windows)
  {
  }

  lemma StaysAsPrepared(before: Disk, now: Disk, a: Authority, prepared: Prepared, windows: bool)
    requires Agree(before, now, prepared.physical)
    ensures AsPreparedNow(before, a, prepared, windows) == AsPreparedNow(now, a, prepared, windows)
  {
    hide PlaceNow, OnePlace;
  }

  lemma RenamedFrame(before: Disk, after: Disk, physical: Path, t: Path)
    requires physical != [] && physical in after && after == Made(before, physical)[physical := after[physical]]
    ensures Frame(before, after, physical)
  {
    var dir := Directory(physical);
    forall p | p != physical && !Beside(p, physical)
      ensures if p in before then p in after && after[p] == before[p] else p in after ==>
          after[p] == Folder && Inside(p, physical)
    {
      WithFoldersFrame(before, dir, |dir|, p);
    }
  }

  /** Only folders on the created path were to go, and any that went was empty at that moment. */
  ghost predicate Removals(events: seq<Event>, first: Path, deepest: Path) {
    forall e :: e in events ==>
      e.RemovedFolder? && (e.ok ==> e.empty) && InsideOrEqual(first, e.path) && InsideOrEqual(e.path, deepest)
  }

  /** Nothing changed but that some of the path that was not in `base` is gone. */
  ghost predicate OnlyLost(was: Disk, now: Disk, base: Disk, deepest: Path) {
    && (forall p :: p in base || !InsideOrEqual(p, deepest) ==> Agree(was, now, p))
    && (forall p :: p in now ==> p in was && now[p] == was[p])
  }

  lemma OneMoreLost(was: Disk, now: Disk, next: Disk, base: Disk, deepest: Path, p: Path)
    requires OnlyLost(was, now, base, deepest) && p !in base && InsideOrEqual(p, deepest)
    requires next == now || next == now - {p}
    ensures OnlyLost(was, next, base, deepest)
  {
  }

  /** The folders a refused restore made, deepest first, while they are empty; the deepest one still there otherwise. */
  method RemoveCreatedFolders(host: Host, first: Path, deepest: Path, ghost base: Disk)
      returns (left: Option<Path>, ghost events: seq<Event>)
    requires 0 < |first| <= |deepest| && first == deepest[..|first|]
    requires host.quiet ==> Consistent(base) && first !in base && forall k :: 0 < k < |first| ==> deepest[..k] in base
    modifies host
    ensures host.log == old(host.log) + events && Removals(events, first, deepest)
    ensures left.Some? ==> InsideOrEqual(first, left.value) && InsideOrEqual(left.value, deepest)
    ensures host.quiet ==> OnlyLost(old(host.disk), host.disk, base, deepest)
    ensures host.quiet && left == None && old(host.disk) == WithFolders(base, deepest, |deepest|) ==> host.disk == base
  {
    hide WithFolders, OnlyLost, Consistent;
    var current := deepest;
    events := [];
    ghost var fits := old(host.disk) == WithFolders(base, deepest, |deepest|);
    NothingLost(host.disk, base, deepest);
    while InsideOrEqual(first, current)
      invariant |first| - 1 <= |current| <= |deepest| && current == deepest[..|current|]
      invariant host.log == old(host.log) + events && Removals(events, first, deepest)
      invariant host.quiet ==> OnlyLost(old(host.disk), host.disk, base, deepest)
      invariant host.quiet && fits ==> host.disk == WithFolders(base, deepest, |current|)
      decreases |current|
    {
      ghost var now := host.disk;
      if host.quiet {
        MissingBelow(base, deepest, |first|, |current|);
        OneFolderBack(base, deepest, |first|, |current|);
      }
      var ok;
      ghost var empty;
      ok, empty := host.RemoveFolder(current);
      events := events + [RemovedFolder(current, ok, empty)];
      if host.quiet { OneMoreLost(old(host.disk), now, host.disk, base, deepest, current); }
      if !ok { return Some(current), events; }
      current := Directory(current);
    }
    if host.quiet && fits {
      assert |current| == |first| - 1;
      NoFoldersMade(base, deepest, |current|);
    }
    left := None;
  }

  lemma NothingLost(disk: Disk, base: Disk, deepest: Path)
    ensures OnlyLost(disk, disk, base, deepest)
  {
  }

  // ---------- the whole commit ----------

  lemma TemporaryGone(before: Disk, between: Disk, after: Disk, physical: Path, t: Path, created: Option<Path>)
    requires physical != [] && Consistent(before) && OnPath(created, Directory(physical))
    requires Halfway(before, between, physical, Some(t), created) && Beside(t, physical)
    requires after - {t} == between - {t} && t !in after
    ensures after == (if created.Some? then Made(before, physical) else before) - {t}
    ensures created.Some? ==> t !in before && after == Made(before, physical)
  {
    var dir := Directory(physical);
    assert after == after - {t};
    if created.Some? {
      MissingBelow(before, dir, |created.value|, |dir|);
      assert dir[..|dir|] == dir;
      assert Directory(t) == dir;
      assert t !in before;
      WithFoldersFrame(before, dir, |dir|, t);
    }
  }

  lemma SameElsewhere(a: Disk, b: Disk, t: Path, p: Path)
    requires a - {t} == b - {t} && p != t
    ensures Agree(a, b, p)
  {
    assert p in a <==> p in a - {t};
    assert p in b <==> p in b - {t};
    if p in a { assert (a - {t})[p] == (b - {t})[p]; }
  }

  lemma FewerBesides(before: Disk, between: Disk, after: Disk, physical: Path, t: Path)
    requires Frame(before, between, physical) && Beside(t, physical) && after - {t} == between - {t}
    ensures Frame(before, after, physical)
    ensures Agree(before, between, physical) ==> Agree(before, after, physical)
  {
    forall p | p != physical && !Beside(p, physical)
      ensures if p in before then p in after && after[p] == before[p] else p in after ==>
          after[p] == Folder && Inside(p, physical)
    {
      SameElsewhere(between, after, t, p);
    }
    SameElsewhere(between, after, t, physical);
  }

  lemma FewerFolders(before: Disk, between: Disk, after: Disk, physical: Path)
    requires physical != [] && Frame(before, between, physical) && Agree(before, between, physical)
    requires forall p :: p in before || !InsideOrEqual(p, Directory(physical)) ==> Agree(between, after, p)
    requires forall p :: p in after ==> p in between && after[p] == between[p]
    ensures Frame(before, after, physical) && Agree(before, after, physical)
  {
  }

  /** What remains of the commit's own temporary file, or None when it is gone. */
  method TidyTemporary(host: Host, temporary: Option<Path>, physical: Path, ghost before: Disk,
      ghost created: Option<Path>)
      returns (left: seq<Left>, ghost cleanup: seq<Event>)
    requires physical != [] && (temporary.Some? ==> Beside(temporary.value, physical))
        && OnPath(created, Directory(physical))
    requires host.quiet ==> Consistent(before) && Frame(before, host.disk, physical)
    modifies host
    ensures host.log == old(host.log) + cleanup
    ensures cleanup == if temporary == None then [] else [RemovedTemporary(temporary.value)]
    ensures host.quiet ==> Frame(before, host.disk, physical)
    ensures host.quiet && Agree(before, old(host.disk), physical) ==> Agree(before, host.disk, physical)
    ensures host.quiet && left == [] && Halfway(before, old(host.disk), physical, temporary, created) ==>
              if created.Some? then
                host.disk == Made(before, physical) && (temporary.Some? ==> temporary.value !in before)
              else host.disk == if temporary.Some? then before - {temporary.value} else before
  {
    hide Frame, Beside, Made, Consistent;
    left, cleanup := [], [];
    if temporary.Some? {
      var t := temporary.value;
      var stays := host.RemoveTemporary(t);
      cleanup := [RemovedTemporary(t)];
      if stays { left := [TemporaryLeft(t)]; }
      if host.quiet {
        FewerBesides(before, old(host.disk), host.disk, physical, t);
        if !stays && Halfway(before, old(host.disk), physical, temporary, created) {
          TemporaryGone(before, old(host.disk), host.disk, physical, t, created);
        }
      }
    }
  }

  /** Tidying after a commit that did not go through. */
  method Tidy(host: Host, temporary: Option<Path>, created: Option<Path>, refused: bool, physical: Path,
              ghost before: Disk, ghost setup: seq<Event>) returns (left: seq<Left>, ghost cleanup: seq<Event>)
    requires physical != [] && FromSetup(setup, physical, temporary, created)
    requires refused ==> Temporaries(setup) == if temporary == None then {} else {temporary.value}
    requires host.quiet ==> Consistent(before)
    requires host.quiet ==> if refused then Halfway(before, host.disk, physical, temporary, created)
        else Frame(before, host.disk, physical)
    modifies host
    ensures host.log == old(host.log) + cleanup && Tidies(cleanup, setup, physical, refused)
    ensures host.quiet ==> Frame(before, host.disk, physical)
    ensures host.quiet && refused ==> Agree(before, host.disk, physical)
    ensures host.quiet && refused && left == [] ==>
              host.disk == before || exists t :: Beside(t, physical) && t in before && host.disk == before - {t}
    ensures host.quiet && refused && left == [] ==> host.disk == before - Temporaries(setup)
  {
    hide Frame, Beside, WithFolders, Consistent, Agree, Temporaries;
    var dir := Directory(physical);
    if host.quiet && refused { HalfwayFrame(before, host.disk, physical, temporary, created); }
    left, cleanup := TidyTemporary(host, temporary, physical, before, created);
    ghost var tidied := host.disk;
    if created.Some? && refused {
      var folder;
      ghost var removed;
      folder, removed := RemoveCreatedFolders(host, created.value, dir, before);
      if host.quiet { FewerFolders(before, tidied, host.disk, physical); }
      cleanup := cleanup + removed;
      if folder.Some? { left := left + [FolderLeft(folder.value)]; }
    }
  }

  method ReplaceTarget(host: Host, prepared: Prepared, content: Content) returns (outcome: Outcome, ghost trace: Trace)
    requires WellPrepared(prepared) && prepared.request.content == PutBytes(content)
    requires host.quiet ==> Consistent(host.disk)
    modifies host
    ensures host.log == old(host.log) + trace.All() && Honest(trace, prepared, outcome, host.windows)
    ensures host.quiet ==> Effect(old(host.disk), host.disk, prepared, outcome, host.windows)
    ensures host.quiet ==> Undoes(old(host.disk), host.disk, outcome, trace.setup)
    ensures host.quiet && host.reliable && GoesThrough(old(host.disk), old(host.authority), prepared, host.windows) ==>
              outcome.Restored? || NameTaken(old(host.disk), prepared.physical)
  {
    hide Passes, WithFolders, GoesThrough, Halfway, Frame, SetsUp, FromSetup, Tidies, Beside, Made, Consistent,
        NameTaken, Temporaries, Undoes;
    ghost var before := host.disk;
    var temporary, created;
    outcome, temporary, created, trace := Attempt(host, prepared, content);
    if outcome.Restored? {
      DidNotRefuse(before, host.disk, outcome, trace.setup);
      return;
    }
    var left;
    ghost var cleanup;
    left, cleanup := Tidy(host, temporary, created, outcome.Refused?, prepared.physical, before, trace.setup);
    outcome := outcome.(left := left);
    trace := trace.(cleanup := cleanup);
    if host.quiet {
      if outcome.Refused? && left == [] {
        TakesTemporaries(before, host.disk, outcome, trace.setup);
      } else {
        DidNotRefuse(before, host.disk, outcome, trace.setup);
      }
    }
  }

  lemma DidNotRefuse(before: Disk, after: Disk, outcome: Outcome, setup: seq<Event>)
    requires outcome.Refused? ==> outcome.left != []
    ensures Undoes(before, after, outcome, setup)
  {
  }

  /** The commit: every check again, then the delete or the replacement. A target not as prepared is left alone. */
  method Commit(host: Host, prepared: Prepared) returns (outcome: Outcome, ghost trace: Trace)
    requires WellPrepared(prepared)
    requires host.quiet ==> Consistent(host.disk)
    modifies host
    ensures host.log == old(host.log) + trace.All() && Honest(trace, prepared, outcome, host.windows)
    ensures host.quiet ==> Effect(old(host.disk), host.disk, prepared, outcome, host.windows)
    ensures host.quiet ==> Undoes(old(host.disk), host.disk, outcome, trace.setup)
    ensures host.quiet && host.reliable ==>
              (AsPreparedNow(old(host.disk), old(host.authority), prepared, host.windows)
              || (outcome.Refused? && host.disk == old(host.disk)))
    ensures host.quiet && host.reliable && GoesThrough(old(host.disk), old(host.authority), prepared, host.windows) ==>
              outcome.Restored? || NameTaken(old(host.disk), prepared.physical)
  {
    hide Passes, AsPreparedNow, GoesThrough, Effect, Acts, SetsUp, Tidies, NameTaken, Consistent, Undoes, Temporaries;
    var problem, check := StillAsPrepared(host, prepared);
    if host.quiet && host.reliable && GoesThrough(host.disk, host.authority, prepared, host.windows) {
      GoesThroughFacts(host.disk, host.authority, prepared, host.windows);
    }
    if problem.Some? {
      outcome, trace := Refused(problem.value, []), Trace(check, [], [], []);
      NothingDone(check, prepared, outcome, host.windows);
      assert trace.All() == check;
      if host.quiet {
        Untouched(host.disk, prepared, outcome, check, host.windows);
      }
      return;
    }
    ghost var acted;
    match prepared.request.content {
      case PutAbsent => outcome, acted := DeleteTarget(host, prepared);
      case PutBytes(content) => outcome, acted := ReplaceTarget(host, prepared, content);
    }
    LooksFirst(check, acted, prepared, outcome, host.windows);
    trace := acted.(setup := check + acted.setup);
    LooksWriteNothing(check, acted.setup);
    if host.quiet { SameTemporaries(old(host.disk), host.disk, outcome, acted.setup, trace.setup); }
    assert host.log == old(host.log) + (check + acted.All());
  }

  lemma SameTemporaries(before: Disk, after: Disk, outcome: Outcome, a: seq<Event>, b: seq<Event>)
    requires Undoes(before, after, outcome, a) && Temporaries(a) == Temporaries(b)
    ensures Undoes(before, after, outcome, b)
  {
    hide Temporaries;
  }

  lemma GoesThroughFacts(disk: Disk, a: Authority, prepared: Prepared, windows: bool)
    requires GoesThrough(disk, a, prepared, windows)
    ensures AsPreparedNow(disk, a, prepared, windows)
  {
  }

  lemma NothingDone(check: seq<Event>, prepared: Prepared, outcome: Outcome, windows: bool)
    requires OnlyLooks(check) && outcome.Refused?
    ensures Honest(Trace(check, [], [], []), prepared, outcome, windows)
  {
  }

  lemma NoEffect(disk: Disk, prepared: Prepared, outcome: Outcome, windows: bool)
    requires outcome.Refused?
    ensures Effect(disk, disk, prepared, outcome, windows)
  {
  }

  lemma LooksFirst(check: seq<Event>, trace: Trace, prepared: Prepared, outcome: Outcome, windows: bool)
    requires OnlyLooks(check) && Honest(trace, prepared, outcome, windows)
    ensures Honest(trace.(setup := check + trace.setup), prepared, outcome, windows)
    ensures check + trace.All() == trace.(setup := check + trace.setup).All()
  {
    hide Passes, Beside;
    assert check + trace.All() == check + trace.setup + trace.check + trace.act + trace.cleanup;
  }

  // ---------- what every honest commit's log shows ----------

  lemma OnlyActCommits(trace: Trace, prepared: Prepared, outcome: Outcome, windows: bool, i: nat)
    requires Honest(trace, prepared, outcome, windows) && i < |trace.All()| && Commits(trace.All()[i])
    ensures trace.act != [] && i == |trace.setup + trace.check| && trace.All()[i] == trace.act[0]
  {
    hide Passes, Beside, IsAct;
    var all, n := trace.All(), |trace.setup + trace.check|;
    WhichPart(trace, i);
  }

  lemma WhichPart(trace: Trace, i: nat)
    requires i < |trace.All()|
    ensures var e, n := trace.All()[i], |trace.setup + trace.check|;
      if i < |trace.setup| then e in trace.setup
      else if i < n then e in trace.check
      else if i < n + |trace.act| then e == trace.act[i - n]
      else e in trace.cleanup
  {
  }

  /**
   * A rename or delete is issued at most once, on the target alone, and directly after a whole check that passed, the
   * reading in front of it included.
   */
  lemma CommitsFollowChecks(trace: Trace, prepared: Prepared, outcome: Outcome, windows: bool)
    requires Honest(trace, prepared, outcome, windows)
    ensures forall i :: 0 <= i < |trace.All()| && Commits(trace.All()[i]) ==>
              && IsAct(trace.All()[i], trace.setup, prepared)
              && (exists j :: 0 <= j <= i && Passes(trace.All()[j..i], prepared, windows))
              && i > 0 && trace.All()[i - 1].Read? && trace.All()[i - 1].path == prepared.physical
              && Unchanged(trace.All()[i - 1].seen, prepared.observed)
    ensures forall i, j ::
        0 <= i < |trace.All()| && 0 <= j < |trace.All()| && Commits(trace.All()[i]) && Commits(trace.All()[j]) ==>
            i == j
  {
    hide Passes, IsAct, SetsUp, Tidies;
    var all := trace.All();
    forall i | 0 <= i < |all| && Commits(all[i])
      ensures i == |trace.setup + trace.check|
      ensures IsAct(all[i], trace.setup, prepared)
      ensures exists j :: 0 <= j <= i && Passes(all[j..i], prepared, windows)
      ensures i > 0 && all[i - 1].Read? && all[i - 1].path == prepared.physical
      ensures Unchanged(all[i - 1].seen, prepared.observed)
    {
      OnlyActCommits(trace, prepared, outcome, windows, i);
      assert all[|trace.setup|..i] == trace.check;
      LastOfPasses(trace.check, prepared, windows);
      assert all[i - 1] == trace.check[|trace.check| - 1];
    }
  }

  lemma LastOfPasses(check: seq<Event>, prepared: Prepared, windows: bool)
    requires Passes(check, prepared, windows)
    ensures check != [] && check[|check| - 1].Read? && check[|check| - 1].path == prepared.physical
    ensures Unchanged(check[|check| - 1].seen, prepared.observed)
  {
  }

  /** A last check that read anything else than was prepared ends in a refusal, with nothing issued. */
  lemma ChangedIsRefused(trace: Trace, prepared: Prepared, outcome: Outcome, windows: bool)
    requires Honest(trace, prepared, outcome, windows) && trace.check != []
    requires var last := trace.check[|trace.check| - 1]; !last.Read? || !Unchanged(last.seen, prepared.observed)
    ensures outcome.Refused? && forall e :: e in trace.All() ==> !Commits(e)
  {
    hide Passes, IsAct;
    if trace.act != [] {
      LastOfPasses(trace.check, prepared, windows);
      assert false;
    }
    forall e | e in trace.All() ensures !Commits(e) {
      var i :| 0 <= i < |trace.All()| && trace.All()[i] == e;
      if Commits(e) {
        OnlyActCommits(trace, prepared, outcome, windows, i);
        assert false;
      }
    }
  }

  /** After an act that failed, the outcome is a refusal if and only if the target reads as it was prepared. */
  lemma FailedActSays(trace: Trace, prepared: Prepared, outcome: Outcome, windows: bool, i: nat)
    requires Honest(trace, prepared, outcome, windows)
    requires i < |trace.All()| && Commits(trace.All()[i]) && !Succeeded(trace.All()[i])
    ensures ReadBack(trace.All(), i, prepared.physical)
    ensures var seen, was := trace.All()[i + 1].seen, prepared.observed;
      if (seen == Absent && was == Absent)
         || (seen.File? && was.File? && seen.digest == was.digest && seen.dev == was.dev && seen.ino == was.ino)
      then outcome.Refused? else outcome.Uncertain?
  {
    hide Passes, IsAct, SetsUp, Tidies;
    OnlyActCommits(trace, prepared, outcome, windows, i);
    assert trace.All()[i + 1] == trace.act[1];
    ReadingIs(trace.act[1].seen, prepared.observed);
  }

  lemma ReadingIs(seen: Seen, was: Seen)
    ensures Unchanged(seen, was) <==>
      || (seen == Absent && was == Absent)
      || (seen.File? && was.File? && seen.digest == was.digest && seen.dev == was.dev && seen.ino == was.ino)
  {
    SameStateIff(seen, was);
  }

  /** The event after `all[i]` is a reading of the target. */
  predicate ReadBack(all: seq<Event>, i: nat, physical: Path) {
    i + 1 < |all| && all[i + 1].Read? && all[i + 1].path == physical
  }

  /**
   * A restore is reported only when the reading directly after its own successful act found exactly what was wanted.
   */
  lemma RestoredWasSeen(trace: Trace, prepared: Prepared, outcome: Outcome, windows: bool) returns (i: nat)
    requires Honest(trace, prepared, outcome, windows) && outcome.Restored?
    ensures i < |trace.All()| && Succeeded(trace.All()[i]) && IsAct(trace.All()[i], trace.setup, prepared)
    ensures ReadBack(trace.All(), i, prepared.physical) && SeesWanted(trace.All()[i + 1].seen, prepared.request.content)
    ensures forall k :: i < k < |trace.All()| ==> !Commits(trace.All()[k])
  {
    hide Passes, IsAct, SetsUp, Tidies;
    i := |trace.setup + trace.check|;
    var all := trace.All();
    assert all[i] == trace.act[0] && all[i + 1] == trace.act[1];
    forall k | i < k < |all|
      ensures !Commits(all[k])
    {
      if Commits(all[k]) { OnlyActCommits(trace, prepared, outcome, windows, k); }
    }
  }

  /**
   * A refusal means no rename or delete succeeded; if one failed, the reading directly after it found the target
   * unchanged.
   */
  lemma RefusedDidNothing(trace: Trace, prepared: Prepared, outcome: Outcome, windows: bool, i: nat)
    requires Honest(trace, prepared, outcome, windows) && outcome.Refused?
    requires i < |trace.All()| && Commits(trace.All()[i])
    ensures !Succeeded(trace.All()[i])
    ensures ReadBack(trace.All(), i, prepared.physical) && Unchanged(trace.All()[i + 1].seen, prepared.observed)
  {
    hide Passes, IsAct, SetsUp, Tidies;
    OnlyActCommits(trace, prepared, outcome, windows, i);
    assert trace.All()[i + 1] == trace.act[1];
  }

  /**
   * The whole restore as the host runs it, with the person's decision between preparation and commit. On any host the
   * log is what the preparation looked at, with a whole passed check when it was ready, and then an honest commit.
   */
  method Restore(host: Host, request: Request, overNewerWork: bool)
      returns (preparation: Preparation, outcome: Outcome, ghost events: seq<Event>, ghost trace: Trace)
    requires host.quiet ==> Consistent(host.disk)
    modifies host
    ensures host.log == old(host.log) + events + trace.All() && OnlyLooks(events)
    ensures preparation.NotReady? ==> outcome == Refused(preparation.problem, []) && trace.All() == []
    ensures preparation.Ready? ==>
              && preparation.prepared.request == request && preparation.prepared.overNewerWork == overNewerWork
              && WellPrepared(preparation.prepared) && Passes(events, preparation.prepared, host.windows)
              && Honest(trace, preparation.prepared, outcome, host.windows)
    ensures host.quiet && preparation.NotReady? ==> host.disk == old(host.disk)
    ensures host.quiet && preparation.Ready? ==>
              && Effect(old(host.disk), host.disk, preparation.prepared, outcome, host.windows)
              && Undoes(old(host.disk), host.disk, outcome, trace.setup)
    ensures host.quiet && host.reliable && preparation.Ready? ==>
              MayMake(old(host.disk), preparation.prepared.physical) ==>
              outcome.Restored? || NameTaken(old(host.disk), preparation.prepared.physical)
  {
    hide Consistent, Effect, Undoes, MayMake, NameTaken, PlaceNow, Passes, Honest, MayPutBack, Meets;
    preparation, events := Prepare(host, request, overNewerWork);
    if preparation.NotReady? {
      trace := Trace([], [], [], []);
      return preparation, Refused(preparation.problem, []), events, trace;
    }
    host.Wait();
    outcome, trace := Commit(host, preparation.prepared);
  }
}
