/** The restore planner, and whether its expectation keeps up with the file over whole runs. */
module RestorePlan {
  import opened Basics
  import opened Checkpoints
  import opened CheckpointStore

  datatype Message = TooLarge | Disabled(reason: Reason) | AlreadyRestored | UnprovedPath

  /** Why a record is not offered for restore, or None when it is. */
  function DisabledMessage(c: Checkpoint): Option<Message> {
    if c.truncated && c.raw == None then Some(TooLarge)
    else if c.disabled.Some? then Some(Disabled(c.disabled.value))
    else if c.restored.Some? then Some(AlreadyRestored)
    else if c.target == None || c.operation == None then Some(UnprovedPath)
    else None
  }

  datatype UnknownReason = TooLargeToTell | EarlierVersion | FolderDeleted
  datatype Expected = ExpectAbsent | ExpectBytes(digest: Digest) | Unknown(reason: UnknownReason)

  function ExpectDigest(digest: Option<Digest>): Expected {
    if digest == None then ExpectAbsent else ExpectBytes(digest.value)
  }

  function ExpectedAfter(newest: Checkpoint): Expected {
    if newest.restored.Some? then ExpectDigest(newest.restored.value.digest)
    else if newest.raw.Some? && newest.raw.value.after.Some? && newest.operation.Some?
        && newest.operation != Some(DeleteDirectory) then
      ExpectDigest(newest.raw.value.after.value)
    else if newest.afterDigest.Some? && newest.operation == Some(Write) then ExpectBytes(newest.afterDigest.value)
    else if newest.truncated then Unknown(TooLargeToTell)
    else if newest.operation == None then Unknown(EarlierVersion)
    else if newest.operation == Some(DeleteDirectory) then Unknown(FolderDeleted)
    else if newest.operation == Some(DeleteFile) then ExpectAbsent
    else ExpectBytes(Sha256(Utf8(newest.after)))
  }

  datatype Plan = Plan(chosen: Checkpoint, undoes: seq<Checkpoint>, expected: Expected)
  datatype Planned = Ready(plan: Plan) | Refused(message: Message)

  /** A path as the platform identifies it. */
  type KeyOf = string -> string

  predicate IsOf(c: Checkpoint, key: KeyOf, k: string) { c.target.Some? && key(c.target.value) == k }

  function Of(items: seq<Checkpoint>, key: KeyOf, k: string): (r: seq<Checkpoint>)
    ensures |r| <= |items|
  {
    if items == [] then []
    else (if IsOf(items[0], key, k) then [items[0]] else []) + Of(items[1..], key, k)
  }

  function InsertById(c: Checkpoint, sorted: seq<Checkpoint>): (r: seq<Checkpoint>)
    ensures |r| == |sorted| + 1
  {
    if sorted == [] || c.id <= sorted[0].id then [c] + sorted else [sorted[0]] + InsertById(c, sorted[1..])
  }

  function ById(items: seq<Checkpoint>): (r: seq<Checkpoint>)
    ensures |r| == |items|
  {
    if items == [] then [] else InsertById(items[0], ById(items[1..]))
  }

  predicate Sorted(items: seq<Checkpoint>) {
    items != [] ==> (forall c :: c in items[1..] ==> items[0].id <= c.id) && Sorted(items[1..])
  }

  /** Whatever list it is given, in whatever order. */
  lemma {:induction false} ByIdSorts(items: seq<Checkpoint>)
    ensures Sorted(ById(items)) && multiset(ById(items)) == multiset(items)
  {
    hide InsertById, Sorted;
    if items == [] {
      SortedOne([]);
    } else {
      ByIdSorts(items[1..]);
      InsertKeeps(items[0], ById(items[1..]));
      InsertSorts(items[0], ById(items[1..]));
      assert items == [items[0]] + items[1..];
    }
  }

  lemma SortedOne(items: seq<Checkpoint>)
    requires |items| <= 1
    ensures Sorted(items)
  {
  }

  lemma {:induction false} InsertKeeps(c: Checkpoint, sorted: seq<Checkpoint>)
    ensures multiset(InsertById(c, sorted)) == multiset(sorted) + multiset{c}
    ensures forall d :: d in InsertById(c, sorted) ==> d == c || d in sorted
  {
    if sorted != [] && c.id > sorted[0].id {
      InsertKeeps(c, sorted[1..]);
      assert sorted == [sorted[0]] + sorted[1..];
    }
  }

  lemma {:induction false} InsertSorts(c: Checkpoint, sorted: seq<Checkpoint>)
    requires Sorted(sorted)
    ensures Sorted(InsertById(c, sorted))
  {
    if sorted != [] && c.id > sorted[0].id {
      InsertSorts(c, sorted[1..]);
      InsertKeeps(c, sorted[1..]);
      assert ([sorted[0]] + InsertById(c, sorted[1..]))[1..] == InsertById(c, sorted[1..]);
    } else {
      assert ([c] + sorted)[1..] == sorted;
    }
  }

  function Undone(sameFile: seq<Checkpoint>, chosen: nat): seq<Checkpoint> {
    if sameFile == [] then []
    else
      (if sameFile[0].id >= chosen && sameFile[0].restored == None then [sameFile[0]] else [])
      + Undone(sameFile[1..], chosen)
  }

  function MakePlan(all: seq<Checkpoint>, chosen: Checkpoint, key: KeyOf): Planned {
    var disabled := DisabledMessage(chosen);
    if disabled.Some? then Refused(disabled.value)
    else
      var sameFile := ById(Of(all, key, key(chosen.target.value)));
      var newest := if sameFile == [] then chosen else sameFile[|sameFile| - 1];
      Ready(Plan(chosen, Undone(sameFile, chosen.id), ExpectedAfter(newest)))
  }

  // ---------- the log is planned from newest first; sorting by id undoes that ----------

  function Reversed(items: seq<Checkpoint>): (r: seq<Checkpoint>)
    ensures |r| == |items|
  {
    if items == [] then [] else Reversed(items[1..]) + [items[0]]
  }

  lemma OfCons(c: Checkpoint, rest: seq<Checkpoint>, key: KeyOf, k: string)
    ensures Of([c] + rest, key, k) == (if IsOf(c, key, k) then [c] + Of(rest, key, k) else Of(rest, key, k))
  {
    assert ([c] + rest)[1..] == rest;
    assert [] + Of(rest, key, k) == Of(rest, key, k);
  }

  lemma OfNothing(key: KeyOf, k: string)
    ensures Of([], key, k) == []
  {
  }

  lemma {:induction false} OfPrefix(a: seq<Checkpoint>, c: Checkpoint, key: KeyOf, k: string)
    ensures Of(a + [c], key, k) == Of(a, key, k) + (if IsOf(c, key, k) then [c] else [])
    decreases |a|
  {
    hide IsOf, Of;
    if a == [] {
      OfNothing(key, k);
      OfCons(c, [], key, k);
      assert a + [c] == [c] + [] == [c];
    } else {
      OfCons(a[0], a[1..] + [c], key, k);
      OfCons(a[0], a[1..], key, k);
      assert a + [c] == [a[0]] + (a[1..] + [c]) && a == [a[0]] + a[1..];
      OfPrefix(a[1..], c, key, k);
    }
  }

  lemma {:induction false} OfReversed(items: seq<Checkpoint>, key: KeyOf, k: string)
    ensures Of(Reversed(items), key, k) == Reversed(Of(items, key, k))
  {
    hide IsOf, Of;
    if items == [] {
      OfNothing(key, k);
    } else {
      OfReversed(items[1..], key, k);
      OfPrefix(Reversed(items[1..]), items[0], key, k);
      var rest := Of(items[1..], key, k);
      OfCons(items[0], items[1..], key, k);
      assert items == [items[0]] + items[1..];
      assert ([items[0]] + rest)[1..] == rest && Reversed(rest) + [] == Reversed(rest);
    }
  }

  lemma {:induction false} ByIdAppend(a: seq<Checkpoint>, c: Checkpoint)
    requires forall d :: d in a ==> c.id < d.id
    ensures ById(a + [c]) == [c] + ById(a)
    decreases |a|
  {
    if a == [] {
      assert a + [c] == [c] && [c][1..] == [];
    } else {
      assert (a + [c])[1..] == a[1..] + [c];
      ByIdAppend(a[1..], c);
      assert a[0] in a;
      assert ([c] + ById(a[1..]))[1..] == ById(a[1..]);
    }
  }

  lemma {:induction false} InReversed(items: seq<Checkpoint>)
    ensures forall c :: c in Reversed(items) ==> c in items
  {
    if items != [] { InReversed(items[1..]); }
  }

  /** Sorting the newest-first list of a growing log by id gives the log. */
  lemma {:induction false} SortUndoesReverse(items: seq<Checkpoint>, next: nat)
    requires Numbered(items, next)
    ensures ById(Reversed(items)) == items
  {
    hide InsertById;
    if items != [] {
      SortUndoesReverse(items[1..], next);
      InReversed(items[1..]);
      ByIdAppend(Reversed(items[1..]), items[0]);
    }
  }

  lemma {:induction false} OfFacts(items: seq<Checkpoint>, key: KeyOf, k: string, next: nat)
    ensures forall c :: c in Of(items, key, k) <==> c in items && IsOf(c, key, k)
    ensures Numbered(items, next) ==> Numbered(Of(items, key, k), next)
  {
    hide IsOf;
    if items != [] {
      var rest := Of(items[1..], key, k);
      OfFacts(items[1..], key, k, next);
      assert ([items[0]] + rest)[1..] == rest && [] + rest == rest;
    }
  }

  /** The plan the host makes from its newest-first list, in terms of the log. */
  lemma PlanOfLog(items: seq<Checkpoint>, chosen: Checkpoint, key: KeyOf, next: nat)
    requires Numbered(items, next) && DisabledMessage(chosen) == None && chosen in items
    ensures var sameFile := Of(items, key, key(chosen.target.value));
      && sameFile != []
      && MakePlan(Reversed(items), chosen, key) ==
         Ready(Plan(chosen, Undone(sameFile, chosen.id), ExpectedAfter(sameFile[|sameFile| - 1])))
  {
    var k := key(chosen.target.value);
    hide ExpectedAfter, Undone;
    OfReversed(items, key, k);
    OfFacts(items, key, k, next);
    SortUndoesReverse(Of(items, key, k), next);
    assert IsOf(chosen, key, k);
  }

  // ---------- one file over a run ----------

  datatype File = Absent | Held(content: Content)

  function DigestOf(f: File): Option<Digest> { if f.Absent? then None else Some(Sha256(f.content)) }

  /** What preparation requires before it lets a restore act: the file is what is expected. */
  predicate Matches(e: Expected, f: File) {
    match e
    case ExpectAbsent => f.Absent?
    case ExpectBytes(digest) => f.Held? && Sha256(f.content) == digest
    case Unknown(_) => false
  }

  predicate Agrees(e: Expected, f: File) { e.Unknown? || Matches(e, f) }

  /**
   * The log, one file, and the bytes the raw store keeps. `prior` is not the program's: it remembers what the file held
   * before each recorded change.
   */
  datatype World = World(items: seq<Checkpoint>, nextId: nat, file: File, kept: map<string, File>,
    prior: map<nat, File>)

  /** What a restore of this record puts back, when it is still kept. */
  function PutsBack(c: Checkpoint, kept: map<string, File>): Option<File> {
    if c.raw.Some? then (if c.raw.value.id in kept then Some(kept[c.raw.value.id]) else None)
    else Some(if c.before == None then Absent else Held(Utf8(c.before.value)))
  }

  datatype Event =
    | Change(input: Input, now: int, left: File)  // a tool changed the file, and the host was told so
    | Elsewhere(input: Input, now: int)           // a tool changed another file
    | Restore(id: nat, at: int)
    | Evict(ids: set<nat>, raw: set<string>)      // records and kept bytes that go

  /** What the tool reports of its change is so: what it says of the file before and after holds. */
  predicate Truthful(input: Input, before: File, after: File) {
    && (input.raw == None && input.disabled == None && input.operation != Some(DeleteDirectory) ==>
          before == if input.before == None then Absent else Held(Utf8(input.before.value)))
    && (input.raw.Some? && input.raw.value.after.Some? ==> input.raw.value.after.value == DigestOf(after))
    && (input.afterDigest.Some? && input.operation == Some(Write) ==> Some(input.afterDigest.value) == DigestOf(after))
    && ((input.raw.Some? && input.raw.value.after.Some?) || input.afterDigest.Some? ||
        (input.operation == Some(Write) ==> after == Held(Utf8(input.after))))
    && (input.operation == Some(DeleteFile) ==> after.Absent?)
  }

  function Newest(w: World, key: KeyOf, k: string): Option<Checkpoint> {
    var sameFile := Of(w.items, key, k);
    if sameFile == [] then None else Some(sameFile[|sameFile| - 1])
  }

  function Find(items: seq<Checkpoint>, id: nat): (r: Option<Checkpoint>)
    ensures r.Some? ==> r.value in items && r.value.id == id
  {
    if items == [] then None else if items[0].id == id then Some(items[0]) else Find(items[1..], id)
  }

  predicate FileAsPlanned(planned: Planned, f: File) { planned.Ready? && Matches(planned.plan.expected, f) }

  /** A restore the host carries out: offered, of this file, its bytes kept, and the file as expected. */
  predicate MayRestore(w: World, id: nat, key: KeyOf, k: string) {
    var c := Find(w.items, id);
    && c.Some? && DisabledMessage(c.value) == None && IsOf(c.value, key, k)
    && PutsBack(c.value, w.kept).Some?
    && FileAsPlanned(MakePlan(Reversed(w.items), c.value, key), w.file)
    && !(w.file.Absent? && PutsBack(c.value, w.kept).value.Absent?)
  }

  predicate Survives(c: Checkpoint, ids: set<nat>, raw: set<string>) {
    c.id !in ids && !(c.raw.Some? && c.raw.value.id in raw)
  }

  predicate Enabled(w: World, e: Event, key: KeyOf, k: string) {
    match e
    case Change(input, now, left) =>
      && input.target.Some? && input.target.value != "" && key(input.target.value) == k
      && Truthful(input, w.file, left)
      && (input.raw.Some? ==> input.raw.value.id !in w.kept && forall c :: c in w.items && c.raw.Some? ==>
          c.raw.value.id != input.raw.value.id)
    case Elsewhere(input, now) =>
      && !IsOf(Made(input, w.nextId, now), key, k)
    case Restore(id, at) => MayRestore(w, id, key, k)
    case Evict(ids, raw) => true
  }

  function Kept(items: seq<Checkpoint>, ids: set<nat>, raw: set<string>): seq<Checkpoint> {
    if items == [] then []
    else (if Survives(items[0], ids, raw) then [items[0]] else []) + Kept(items[1..], ids, raw)
  }

  function Ids(items: seq<Checkpoint>): set<nat> { set c | c in items :: c.id }

  function Apply(w: World, e: Event, key: KeyOf, k: string): World
    requires Enabled(w, e, key, k)
  {
    match e
    case Change(input, now, left) =>
      if Skipped(input) then w.(file := left)
      else World(w.items + [Made(input, w.nextId, now)], w.nextId + 1, left,
                 if input.raw.Some? then w.kept[input.raw.value.id := w.file] else w.kept, w.prior[w.nextId := w.file])
    case Elsewhere(input, now) =>
      if Skipped(input) then w else w.(items := w.items + [Made(input, w.nextId, now)], nextId := w.nextId + 1)
    case Restore(id, at) =>
      var c := Find(w.items, id).value;
      var f := PutsBack(c, w.kept).value;
      w.(file := f,
         items := Marked(w.items, Ids(MakePlan(Reversed(w.items), c, key).plan.undoes), Restored(at, DigestOf(f))))
    case Evict(ids, raw) => w.(items := Kept(w.items, ids, raw), kept := w.kept - raw)
  }

  /** The newest record's expectation is unknown or is what the file holds. */
  predicate KeepsUp(w: World, key: KeyOf, k: string) {
    var newest := Newest(w, key, k);
    newest.Some? ==> Agrees(ExpectedAfter(newest.value), w.file)
  }

  /** If a restore of `c` could be offered, it puts back what the file held before that change. */
  predicate RestoresPrior(c: Checkpoint, kept: map<string, File>, prior: map<nat, File>) {
    DisabledMessage(c) == None && PutsBack(c, kept).Some? ==> c.id in prior && PutsBack(c, kept).value == prior[c.id]
  }

  predicate PutsBackPrior(w: World, key: KeyOf, k: string) {
    forall c :: c in w.items && IsOf(c, key, k) ==> RestoresPrior(c, w.kept, w.prior)
  }

  /** An older record's expectation `e` still fits a file that the newest one's expectation `was` agrees with. */
  predicate StillFits(e: Expected, was: Expected, f: File) {
    e.Unknown? || e == was || (was.Unknown? && Matches(e, f))
  }

  /**
   * When a step keeps the expectation right. A change must be recorded, or leave the file alone. A restore must find
   * the file's newest record not yet restored, or restored to the very content put back now: only the records it
   * undoes are marked. An eviction must take all of the file's records, or leave a newest one whose expectation the
   * log shows to fit.
   */
  predicate InStep(w: World, e: Event, key: KeyOf, k: string)
    requires Enabled(w, e, key, k)
  {
    var newest := Newest(w, key, k);
    match e
    case Change(input, _, left) =>
      !Skipped(input) || left == w.file || newest == None || ExpectedAfter(newest.value).Unknown?
    case Elsewhere(_, _) => true
    case Restore(id, _) =>
      newest.Some? && (newest.value.restored == None ||
                       newest.value.restored.value.digest == DigestOf(PutsBack(Find(w.items, id).value, w.kept).value))
    case Evict(ids, raw) =>
      var left := Kept(Of(w.items, key, k), ids, raw);
      left != [] && newest.Some? ==> StillFits(ExpectedAfter(left[|left| - 1]), ExpectedAfter(newest.value), w.file)
  }

  // ---------- proofs ----------

  lemma NewestOfAppended(items: seq<Checkpoint>, c: Checkpoint, key: KeyOf, k: string)
    ensures Of(items + [c], key, k) == if IsOf(c, key, k) then Of(items, key, k) + [c] else Of(items, key, k)
  {
    OfPrefix(items, c, key, k);
    assert Of(items, key, k) + [] == Of(items, key, k);
  }

  function Mark(c: Checkpoint, ids: set<nat>, mark: Restored): Checkpoint {
    if c.id in ids then c.(restored := Some(mark)) else c
  }

  lemma {:induction false} OfMarked(items: seq<Checkpoint>, ids: set<nat>, mark: Restored, key: KeyOf, k: string)
    ensures Of(Marked(items, ids, mark), key, k) == Marked(Of(items, key, k), ids, mark)
  {
    if items != [] {
      OfMarked(items[1..], ids, mark, key, k);
      var rest := Of(items[1..], key, k);
      assert Marked(items, ids, mark)[1..] == Marked(items[1..], ids, mark);
      assert ([items[0]] + rest)[1..] == rest && [] + rest == rest;
      assert [] + Marked(rest, ids, mark) == Marked(rest, ids, mark);
    }
  }

  lemma {:induction false} UndoneIds(sameFile: seq<Checkpoint>, chosen: nat, next: nat)
    requires Numbered(sameFile, next)
    ensures forall c :: c in Undone(sameFile, chosen) <==> c in sameFile && c.id >= chosen && c.restored == None
    ensures forall c, d :: c in sameFile && d in sameFile && c.id == d.id ==> c == d
  {
    if sameFile != [] {
      UndoneIds(sameFile[1..], chosen, next);
      assert [] + Undone(sameFile[1..], chosen) == Undone(sameFile[1..], chosen);
    }
  }

  lemma {:induction false} LastIsNewest(sameFile: seq<Checkpoint>, next: nat)
    requires Numbered(sameFile, next) && sameFile != []
    ensures forall c :: c in sameFile ==> c.id <= sameFile[|sameFile| - 1].id
  {
    if |sameFile| > 1 {
      LastIsNewest(sameFile[1..], next);
      assert sameFile[1..][|sameFile| - 2] == sameFile[|sameFile| - 1];
    }
  }

  lemma UndoneHasNewest(sameFile: seq<Checkpoint>, chosen: Checkpoint, next: nat)
    requires Numbered(sameFile, next) && chosen in sameFile
    ensures var newest := sameFile[|sameFile| - 1];
        newest.id in Ids(Undone(sameFile, chosen.id)) <==> newest.restored == None
  {
    hide Numbered, Undone;
    UndoneIds(sameFile, chosen.id, next);
    LastIsNewest(sameFile, next);
    var newest := sameFile[|sameFile| - 1];
    assert newest in sameFile;
    if newest.restored == None { assert newest in Undone(sameFile, chosen.id); }
  }

  lemma LastMarked(items: seq<Checkpoint>, ids: set<nat>, mark: Restored, key: KeyOf, k: string, next: nat)
    requires Of(items, key, k) != []
    ensures var left, sameFile := Of(Marked(items, ids, mark), key, k), Of(items, key, k);
      left != [] && left[|left| - 1] == Mark(sameFile[|sameFile| - 1], ids, mark)
  {
    OfMarked(items, ids, mark, key, k);
    MarkedFacts(Of(items, key, k), ids, mark, next);
  }

  /** A restore marks the newest record of the file exactly when it was not yet restored. */
  lemma RestoreMarksNewest(w: World, id: nat, at: int, key: KeyOf, k: string)
    requires Numbered(w.items, w.nextId) && MayRestore(w, id, key, k)
    ensures var f := PutsBack(Find(w.items, id).value, w.kept).value; var newest := Newest(w, key, k);
        var mark := Restored(at, DigestOf(f));
      && newest.Some? && Matches(ExpectedAfter(newest.value), w.file)
      && Newest(Apply(w, Restore(id, at), key, k), key, k) ==
         Some(if newest.value.restored == None then newest.value.(restored := Some(mark)) else newest.value)
  {
    hide PutsBack, ExpectedAfter, Matches, Numbered, Of, MakePlan, Marked, Undone, Ids, Reversed;
    var c := Find(w.items, id).value;
    var sameFile := Of(w.items, key, k);
    PlanOfLog(w.items, c, key, w.nextId);
    OfFacts(w.items, key, k, w.nextId);
    assert c in sameFile;
    UndoneHasNewest(sameFile, c, w.nextId);
    LastMarked(w.items, Ids(Undone(sameFile, id)), Restored(at, DigestOf(PutsBack(c, w.kept).value)), key, k, w.nextId);
  }

  lemma {:induction false} KeptFacts(items: seq<Checkpoint>, ids: set<nat>, raw: set<string>, next: nat)
    ensures forall c :: c in Kept(items, ids, raw) <==> c in items && Survives(c, ids, raw)
    ensures Numbered(items, next) ==> Numbered(Kept(items, ids, raw), next)
  {
    hide Survives;
    if items != [] {
      KeptFacts(items[1..], ids, raw, next);
      var left := Kept(items[1..], ids, raw);
      assert ([items[0]] + left)[1..] == left && [] + left == left;
    }
  }

  lemma {:induction false} OfKept(items: seq<Checkpoint>, ids: set<nat>, raw: set<string>, key: KeyOf, k: string)
    ensures Of(Kept(items, ids, raw), key, k) == Kept(Of(items, key, k), ids, raw)
  {
    hide IsOf, Survives;
    if items != [] {
      OfKept(items[1..], ids, raw, key, k);
      var rest, left := Of(items[1..], key, k), Kept(items[1..], ids, raw);
      assert ([items[0]] + left)[1..] == left && [] + left == left;
      assert ([items[0]] + rest)[1..] == rest && [] + rest == rest;
      assert [] + Kept(rest, ids, raw) == Kept(rest, ids, raw);
    }
  }

  lemma ChangeKeepsUpIff(w: World, input: Input, now: int, left: File, key: KeyOf, k: string)
    requires KeepsUp(w, key, k) && Enabled(w, Change(input, now, left), key, k)
    ensures KeepsUp(Apply(w, Change(input, now, left), key, k), key, k) <==> InStep(w, Change(input, now, left), key, k)
  {
    hide Of, Numbered;
    var u := Apply(w, Change(input, now, left), key, k);
    if Skipped(input) {
      assert Newest(u, key, k) == Newest(w, key, k);
    } else {
      var made := Made(input, w.nextId, now);
      NewestOfAppended(w.items, made, key, k);
      assert IsOf(made, key, k);
      assert Newest(u, key, k) == Some(made);
      TruthfulAgrees(input, w.nextId, now, w.file, left);
    }
  }

  lemma TruthfulAgrees(input: Input, id: nat, now: int, before: File, left: File)
    requires Truthful(input, before, left)
    ensures Agrees(ExpectedAfter(Made(input, id, now)), left)
  {
    match input.operation
    case None =>
    case Some(operation) =>
      match operation
      case Write =>
      case DeleteFile =>
      case DeleteDirectory =>
  }

  lemma ElsewhereKeepsUp(w: World, input: Input, now: int, key: KeyOf, k: string)
    requires KeepsUp(w, key, k) && Enabled(w, Elsewhere(input, now), key, k)
    ensures KeepsUp(Apply(w, Elsewhere(input, now), key, k), key, k)
  {
    hide Of, Made, ExpectedAfter;
    NewestOfAppended(w.items, Made(input, w.nextId, now), key, k);
  }

  lemma RestoreKeepsUpIff(w: World, id: nat, at: int, key: KeyOf, k: string)
    requires Numbered(w.items, w.nextId) && KeepsUp(w, key, k) && Enabled(w, Restore(id, at), key, k)
    ensures KeepsUp(Apply(w, Restore(id, at), key, k), key, k) <==> InStep(w, Restore(id, at), key, k)
  {
    hide Newest, MayRestore, Numbered, Marked, MakePlan, PutsBack;
    RestoreMarksNewest(w, id, at, key, k);
    MayRestoreFacts(w, id, key, k);
  }

  lemma MayRestoreFacts(w: World, id: nat, key: KeyOf, k: string)
    requires MayRestore(w, id, key, k)
    ensures Find(w.items, id).Some? && PutsBack(Find(w.items, id).value, w.kept).Some?
    ensures MakePlan(Reversed(w.items), Find(w.items, id).value, key).Ready?
  {
  }

  lemma FitsIff(e: Expected, was: Expected, f: File)
    requires Agrees(was, f)
    ensures Agrees(e, f) <==> StillFits(e, was, f)
  {
  }

  lemma EvictKeepsUpIff(w: World, ids: set<nat>, raw: set<string>, key: KeyOf, k: string)
    requires KeepsUp(w, key, k)
    ensures KeepsUp(Apply(w, Evict(ids, raw), key, k), key, k) <==> InStep(w, Evict(ids, raw), key, k)
  {
    hide Of, Kept, ExpectedAfter, Agrees, StillFits;
    OfKept(w.items, ids, raw, key, k);
    var sameFile := Of(w.items, key, k);
    var left := Kept(sameFile, ids, raw);
    if sameFile == [] {
      KeptNothing(ids, raw);
    } else if left != [] {
      FitsIff(ExpectedAfter(left[|left| - 1]), ExpectedAfter(sameFile[|sameFile| - 1]), w.file);
    }
  }

  lemma KeptNothing(ids: set<nat>, raw: set<string>)
    ensures Kept([], ids, raw) == []
  {
  }

  lemma StepStaysNumbered(w: World, e: Event, key: KeyOf, k: string)
    requires Numbered(w.items, w.nextId) && Enabled(w, e, key, k)
    ensures Numbered(Apply(w, e, key, k).items, Apply(w, e, key, k).nextId)
  {
    hide Numbered, Marked, MakePlan, Newest, Kept, PutsBack, MayRestore;
    match e
    case Change(input, now, left) => Appended(w.items, Made(input, w.nextId, now));
    case Elsewhere(input, now) => Appended(w.items, Made(input, w.nextId, now));
    case Restore(id, at) =>
      MayRestoreFacts(w, id, key, k);
      var c := Find(w.items, id).value;
      MarkedFacts(w.items, Ids(MakePlan(Reversed(w.items), c, key).plan.undoes),
          Restored(at, DigestOf(PutsBack(c, w.kept).value)), w.nextId);
    case Evict(ids, raw) => KeptFacts(w.items, ids, raw, w.nextId);
  }

  /** A step keeps the newest expectation right if and only if it is in step. */
  lemma StepKeepsUpIff(w: World, e: Event, key: KeyOf, k: string)
    requires Numbered(w.items, w.nextId) && KeepsUp(w, key, k) && Enabled(w, e, key, k)
    ensures KeepsUp(Apply(w, e, key, k), key, k) <==> InStep(w, e, key, k)
  {
    match e
    case Change(input, now, left) => ChangeKeepsUpIff(w, input, now, left, key, k);
    case Elsewhere(input, now) => ElsewhereKeepsUp(w, input, now, key, k);
    case Restore(id, at) => RestoreKeepsUpIff(w, id, at, key, k);
    case Evict(ids, raw) => EvictKeepsUpIff(w, ids, raw, key, k);
    hide Numbered, Newest, Apply, Enabled, KeepsUp;
  }

  lemma NewRecordRestoresPrior(w: World, input: Input, now: int, left: File, key: KeyOf, k: string)
    requires Enabled(w, Change(input, now, left), key, k) && !Skipped(input)
    ensures var u := Apply(w, Change(input, now, left), key, k);
        RestoresPrior(Made(input, w.nextId, now), u.kept, u.prior)
  {
  }

  /** An older record still restores the same, once another is added under a new id and new raw bytes. */
  lemma StillRestoresPrior(c: Checkpoint, w: World, input: Input, now: int, left: File, key: KeyOf, k: string)
    requires Enabled(w, Change(input, now, left), key, k) && !Skipped(input) && c in w.items && c.id < w.nextId
    requires RestoresPrior(c, w.kept, w.prior)
    ensures var u := Apply(w, Change(input, now, left), key, k); RestoresPrior(c, u.kept, u.prior)
  {
    hide DisabledMessage, Made, Truthful;
  }

  lemma ChangePutsBackPrior(w: World, input: Input, now: int, left: File, key: KeyOf, k: string)
    requires Numbered(w.items, w.nextId) && PutsBackPrior(w, key, k) && Enabled(w, Change(input, now, left), key, k)
        && !Skipped(input)
    ensures PutsBackPrior(Apply(w, Change(input, now, left), key, k), key, k)
  {
    var u := Apply(w, Change(input, now, left), key, k);
    NumberedBounds(w.items, w.nextId);
    NewRecordRestoresPrior(w, input, now, left, key, k);
    forall c | c in u.items && IsOf(c, key, k)
      ensures RestoresPrior(c, u.kept, u.prior)
    {
      if c in w.items { StillRestoresPrior(c, w, input, now, left, key, k); }
    }
    hide RestoresPrior, Apply, Enabled, Made, IsOf, Numbered;
  }

  lemma MarkedRestoresPrior(items: seq<Checkpoint>, ids: set<nat>, mark: Restored, w: World, key: KeyOf, k: string,
      next: nat)
    requires forall c :: c in items && IsOf(c, key, k) ==> RestoresPrior(c, w.kept, w.prior)
    ensures forall c :: c in Marked(items, ids, mark) && IsOf(c, key, k) ==> RestoresPrior(c, w.kept, w.prior)
  {
    hide Marked;
    MarkedFacts(items, ids, mark, next);
    forall c | c in Marked(items, ids, mark) && IsOf(c, key, k)
      ensures RestoresPrior(c, w.kept, w.prior)
    {
      var i :| 0 <= i < |items| && Marked(items, ids, mark)[i] == c;
      assert IsOf(items[i], key, k) && items[i] in items;
    }
  }

  lemma FewerRestorePrior(w: World, ids: set<nat>, raw: set<string>, key: KeyOf, k: string)
    requires PutsBackPrior(w, key, k)
    ensures PutsBackPrior(w.(items := Kept(w.items, ids, raw), kept := w.kept - raw), key, k)
  {
    hide Kept, DisabledMessage, IsOf;
    KeptFacts(w.items, ids, raw, w.nextId);
  }

  /** No step makes an offered restore put back anything but what the file held before its change. */
  lemma StepPutsBackPrior(w: World, e: Event, key: KeyOf, k: string)
    requires Numbered(w.items, w.nextId) && PutsBackPrior(w, key, k) && Enabled(w, e, key, k)
    ensures PutsBackPrior(Apply(w, e, key, k), key, k)
  {
    hide Numbered, Marked, MakePlan, Kept, MayRestore, Of, IsOf, RestoresPrior, Ids, Made;
    match e
    case Change(input, now, left) => if !Skipped(input) { ChangePutsBackPrior(w, input, now, left, key, k); }
    case Elsewhere(input, now) =>
    case Restore(id, at) =>
      MayRestoreFacts(w, id, key, k);
      var c := Find(w.items, id).value;
      MarkedRestoresPrior(w.items, Ids(MakePlan(Reversed(w.items), c, key).plan.undoes),
                          Restored(at, DigestOf(PutsBack(c, w.kept).value)), w, key, k, w.nextId);
    case Evict(ids, raw) => FewerRestorePrior(w, ids, raw, key, k);
  }

  ghost predicate RunsInStep(w: World, events: seq<Event>, key: KeyOf, k: string)
    decreases |events|
  {
    events != [] ==>
      Enabled(w, events[0], key, k) && InStep(w, events[0], key, k)
          && RunsInStep(Apply(w, events[0], key, k), events[1..], key, k)
  }

  function After(w: World, events: seq<Event>, key: KeyOf, k: string): World
    requires RunsInStep(w, events, key, k)
    decreases |events|
  {
    if events == [] then w else After(Apply(w, events[0], key, k), events[1..], key, k)
  }

  predicate Sound(w: World, key: KeyOf, k: string) {
    Numbered(w.items, w.nextId) && KeepsUp(w, key, k) && PutsBackPrior(w, key, k)
  }

  /**
   * Over any run of recorded changes, restores and evictions in step: the newest record's expectation is unknown or is
   * what the file holds, and every restore offered puts back what the file held before its change.
   */
  lemma {:induction false} RunStaysSound(w: World, events: seq<Event>, key: KeyOf, k: string)
    requires Sound(w, key, k) && RunsInStep(w, events, key, k)
    ensures Sound(After(w, events, key, k), key, k)
    decreases |events|
  {
    hide Apply, KeepsUp, PutsBackPrior, Enabled, InStep, Numbered;
    if events != [] {
      StepStaysNumbered(w, events[0], key, k);
      StepKeepsUpIff(w, events[0], key, k);
      StepPutsBackPrior(w, events[0], key, k);
      RunStaysSound(Apply(w, events[0], key, k), events[1..], key, k);
    }
  }

  /** The same from an empty log and any file. */
  lemma FreshRunStaysSound(file: File, events: seq<Event>, key: KeyOf, k: string)
    requires RunsInStep(World([], 1, file, map[], map[]), events, key, k)
    ensures Sound(After(World([], 1, file, map[], map[]), events, key, k), key, k)
  {
    RunStaysSound(World([], 1, file, map[], map[]), events, key, k);
  }

  lemma RestoreYieldsPrior(w: World, id: nat, at: int, key: KeyOf, k: string)
    requires Sound(w, key, k) && Enabled(w, Restore(id, at), key, k)
    ensures id in w.prior && Apply(w, Restore(id, at), key, k).file == w.prior[id]
  {
    hide Matches, MakePlan;
  }

  /** A record is offered exactly when its change was not undone, names its file and operation, and has its bytes. */
  lemma OfferedIff(c: Checkpoint)
    ensures DisabledMessage(c) == None <==>
      && c.restored == None && c.disabled == None && c.target.Some? && c.operation.Some?
      && (c.truncated ==> c.raw.Some?)
  {
  }

  /**
   * What is expected behind a record: after a restore, what that left; after a write or a deletion, what was read back,
   * or else what the kept text says; nothing is known of any other record, nor of one whose text was too long to keep
   * and that was not read back.
   */
  lemma ExpectedIs(c: Checkpoint)
    ensures ExpectedAfter(c).Unknown? <==>
            && c.restored == None
            && (!(c.operation == Some(Write) || c.operation == Some(DeleteFile))
                || (c.truncated && !Confirmed(c) && !ReadBackOnly(c)))
    ensures c.restored.Some? ==> ExpectedAfter(c) == ExpectDigest(c.restored.value.digest)
    ensures c.restored == None && Confirmed(c) ==> ExpectedAfter(c) == ExpectDigest(c.raw.value.after.value)
    ensures c.restored == None && ReadBackOnly(c) ==> ExpectedAfter(c) == ExpectBytes(c.afterDigest.value)
    ensures c.restored == None && !Confirmed(c) && !ReadBackOnly(c) && !c.truncated ==>
      && (c.operation == Some(DeleteFile) ==> ExpectedAfter(c) == ExpectAbsent)
      && (c.operation == Some(Write) ==> ExpectedAfter(c) == ExpectBytes(Sha256(Utf8(c.after))))
  {
    if c.operation.Some? {
      var o := c.operation.value;
      assert o == Write || o == DeleteFile || o == DeleteDirectory;
    }
  }

  /** The host kept the bytes before a write or a deletion, and read back what that left. */
  predicate Confirmed(c: Checkpoint) {
    (c.operation == Some(Write) || c.operation == Some(DeleteFile)) && c.raw.Some? && c.raw.value.after.Some?
  }

  predicate ReadBackOnly(c: Checkpoint) { !Confirmed(c) && c.operation == Some(Write) && c.afterDigest.Some? }

  /** A change of which the host kept enough: all of its text, or the bytes before it and a reading after it. */
  predicate KeptEnough(input: Input) {
    && input.disabled == None && (input.operation == Some(Write) || input.operation == Some(DeleteFile))
    && (input.raw == None ==> !TooBig(input))
    && (TooBig(input) ==> input.raw.value.after.Some? || (input.afterDigest.Some? && input.operation == Some(Write)))
  }

  /**
   * Every change of which the host kept enough can be undone: right after it a restore of its record is offered and
   * puts back what the file held before, unless the file was and is absent.
   */
  lemma ChangeMayBeUndone(w: World, input: Input, now: int, left: File, at: int, key: KeyOf, k: string)
    requires Numbered(w.items, w.nextId) && Enabled(w, Change(input, now, left), key, k) && !Skipped(input)
    requires KeptEnough(input) && !(left.Absent? && w.file.Absent?)
    ensures var u := Apply(w, Change(input, now, left), key, k);
      Enabled(u, Restore(w.nextId, at), key, k) && Apply(u, Restore(w.nextId, at), key, k).file == w.file
  {
    hide Of, MakePlan, Reversed, Numbered, Marked;
    var u := Apply(w, Change(input, now, left), key, k);
    var made := Made(input, w.nextId, now);
    MadeIsExpected(input, w, now, left);
    FindAppended(w.items, made, w.nextId);
    AppendedNumbered(w.items, made, w.nextId);
    NewestOfAppended(w.items, made, key, k);
    OfferedIff(made);
    PlanOfLog(u.items, made, key, u.nextId);
  }

  lemma MadeIsExpected(input: Input, w: World, now: int, left: File)
    requires KeptEnough(input) && Truthful(input, w.file, left)
    ensures Matches(ExpectedAfter(Made(input, w.nextId, now)), left)
    ensures input.raw == None ==> PutsBack(Made(input, w.nextId, now), w.kept) == Some(w.file)
  {
  }

  lemma {:induction false} FindAppended(items: seq<Checkpoint>, c: Checkpoint, next: nat)
    requires Numbered(items, next) && c.id == next
    ensures Find(items + [c], next) == Some(c) && c in items + [c]
  {
    if items == [] {
      assert items + [c] == [c];
    } else {
      assert (items + [c])[1..] == items[1..] + [c];
      FindAppended(items[1..], c, next);
    }
  }

  lemma {:induction false} AppendedNumbered(items: seq<Checkpoint>, c: Checkpoint, next: nat)
    requires Numbered(items, next) && c.id == next
    ensures Numbered(items + [c], next + 1)
  {
    if items == [] {
      assert items + [c] == [c] && [c][1..] == [];
    } else {
      assert (items + [c])[1..] == items[1..] + [c];
      AppendedNumbered(items[1..], c, next);
    }
  }

  /** Once the expectation is stale, no restore of the file is offered any more, although nothing outside changed it. */
  lemma StaleBlocksEveryRestore(w: World, id: nat, key: KeyOf, k: string)
    requires Numbered(w.items, w.nextId) && !KeepsUp(w, key, k)
    ensures !MayRestore(w, id, key, k)
  {
    hide ExpectedAfter, MakePlan, Of, Reversed, Numbered, PutsBack, Undone;
    if MayRestore(w, id, key, k) {
      PlanOfLog(w.items, Find(w.items, id).value, key, w.nextId);
      assert false;
    }
  }

  // ---------- a reachable stale expectation ----------

  predicate Short(text: string) { |text| <= MAX_CONTENT_LENGTH }

  function TextWrite(before: string, after: string): Event {
    Change(Input(Some("f"), Some(Write), Some(before), after, None, None, None), 0, Held(Utf8(after)))
  }

  function TextRecord(id: nat, before: string, after: string): Checkpoint {
    Checkpoint(id, Some("f"), Some(Write), Some(before), after, 0, false, None, None, None, None)
  }

  predicate Takes(w: World, e: Event, u: World, key: KeyOf) {
    var k := key("f"); Enabled(w, e, key, k) && InStep(w, e, key, k) && u == Apply(w, e, key, k)
  }

  lemma TextWriteRecords(w: World, before: string, after: string, key: KeyOf) returns (u: World)
    requires w.file == Held(Utf8(before)) && before != after && Short(before) && Short(after)
    ensures Takes(w, TextWrite(before, after), u, key)
    ensures u.items == w.items + [TextRecord(w.nextId, before, after)] && u.nextId == w.nextId + 1
        && u.file == Held(Utf8(after))
    ensures u.kept == w.kept
  {
    u := Apply(w, TextWrite(before, after), key, key("f"));
  }

  lemma AllOfFile(a: Checkpoint, b: Checkpoint, c: Checkpoint, key: KeyOf)
    requires a.target == b.target == c.target == Some("f")
    ensures Of([a, b, c], key, key("f")) == [a, b, c]
  {
    var k := key("f");
    OfNothing(key, k);
    OfCons(c, [], key, k);
    OfCons(b, [c], key, k);
    OfCons(a, [b, c], key, k);
    assert [a] + [b, c] == [a, b, c] && [b] + [c] == [b, c] && [c] + [] == [c];
  }

  lemma {:induction false} FoundAt(items: seq<Checkpoint>, i: nat, next: nat)
    requires Numbered(items, next) && i < |items|
    ensures Find(items, items[i].id) == Some(items[i])
    decreases i
  {
    if i > 0 {
      assert items[1..][i - 1] == items[i];
      FoundAt(items[1..], i - 1, next);
    }
  }

  lemma ThreeNumbered(a: Checkpoint, b: Checkpoint, c: Checkpoint)
    requires a.id == 1 && b.id == 2 && c.id == 3
    ensures Numbered([a, b, c], 4) && Find([a, b, c], 3) == Some(c) && Find([a, b, c], 2) == Some(b)
  {
    assert [a, b, c][1..] == [b, c] && [b, c][1..] == [c] && [c][1..] == [];
    assert Numbered([c], 4);
    assert Numbered([b, c], 4);
    FoundAt([a, b, c], 2, 4);
    FoundAt([a, b, c], 1, 4);
  }

  lemma OnlyNewestUndone(a: Checkpoint, b: Checkpoint, c: Checkpoint, mark: Restored)
    requires a.id == 1 && b.id == 2 && c.id == 3 && c.restored == None
    ensures Marked([a, b, c], Ids(Undone([a, b, c], 3)), mark) == [a, b, c.(restored := Some(mark))]
  {
    hide Marked;
    assert [a, b, c][1..] == [b, c] && [b, c][1..] == [c] && [c][1..] == [];
    assert Undone([c], 3) == [c];
    assert Undone([b, c], 3) == [c];
    assert Undone([a, b, c], 3) == [c];
    assert Ids([c]) == {3};
    ThreeNumbered(a, b, c);
    MarkedFacts([a, b, c], {3}, mark, 4);
  }

  lemma ThirdRestores(w: World, p: string, q: string, r: string, s: string, key: KeyOf) returns (u: World)
    requires w.items == [TextRecord(1, p, q), TextRecord(2, q, r), TextRecord(3, r, s)] && w.nextId == 4
    requires w.file == Held(Utf8(s))
    ensures Takes(w, Restore(3, 0), u, key) && u.file == Held(Utf8(r)) && u.nextId == 4
    ensures u.items == [TextRecord(1, p, q), TextRecord(2, q, r),
        TextRecord(3, r, s).(restored := Some(Restored(0, Some(Sha256(Utf8(r))))))]
  {
    hide Numbered, Of, MakePlan, Reversed, Marked, Ids, Undone, Find;
    var a, b, c := TextRecord(1, p, q), TextRecord(2, q, r), TextRecord(3, r, s);
    AllOfFile(a, b, c, key);
    ThreeNumbered(a, b, c);
    PlanOfLog(w.items, c, key, 4);
    OnlyNewestUndone(a, b, c, Restored(0, Some(Sha256(Utf8(r)))));
    assert MayRestore(w, 3, key, key("f"));
    u := Apply(w, Restore(3, 0), key, key("f"));
  }

  lemma SecondIsOfferedOutOfStep(w: World, p: string, q: string, r: string, s: string, key: KeyOf)
    requires q != r && w.nextId == 4 && w.file == Held(Utf8(r))
    requires w.items
        == [TextRecord(1, p, q), TextRecord(2, q, r),
            TextRecord(3, r, s).(restored := Some(Restored(0, Some(Sha256(Utf8(r))))))]
    ensures Enabled(w, Restore(2, 0), key, key("f")) && !InStep(w, Restore(2, 0), key, key("f"))
  {
    hide Numbered, Of, MakePlan, Reversed, Marked, Ids, Undone, Find;
    AllOfFile(w.items[0], w.items[1], w.items[2], key);
    ThreeNumbered(w.items[0], w.items[1], w.items[2]);
    PlanOfLog(w.items, w.items[1], key, 4);
    assert MayRestore(w, 2, key, key("f"));
  }

  /**
   * Three recorded changes of a file and a restore of the third. Restoring the second is then offered and carried out,
   * but leaves the third record naming what the first restore left: nothing of this file can be restored afterwards.
   */
  lemma StaleAfterTwoRestores(p: string, q: string, r: string, s: string, key: KeyOf)
      returns (w0: World, w1: World, w2: World, w3: World, w: World)
    requires p != q && q != r && r != s && Short(p) && Short(q) && Short(r) && Short(s)
    ensures w0 == World([], 1, Held(Utf8(p)), map[], map[])
    ensures Takes(w0, TextWrite(p, q), w1, key) && Takes(w1, TextWrite(q, r), w2, key)
        && Takes(w2, TextWrite(r, s), w3, key)
    ensures Takes(w3, Restore(3, 0), w, key)
    ensures Enabled(w, Restore(2, 0), key, key("f")) && !KeepsUp(Apply(w, Restore(2, 0), key, key("f")), key, key("f"))
  {
    hide Takes, Enabled, Apply, InStep, KeepsUp, TextRecord, TextWrite, Numbered;
    w0 := World([], 1, Held(Utf8(p)), map[], map[]);
    w1 := TextWriteRecords(w0, p, q, key);
    w2 := TextWriteRecords(w1, q, r, key);
    w3 := TextWriteRecords(w2, r, s, key);
    assert w3.items == [TextRecord(1, p, q), TextRecord(2, q, r), TextRecord(3, r, s)];
    w := ThirdRestores(w3, p, q, r, s, key);
    SecondIsOfferedOutOfStep(w, p, q, r, s, key);
    FreshKeepsUp(w0, key);
    TakenKeepsUp(w0, TextWrite(p, q), w1, key);
    TakenKeepsUp(w1, TextWrite(q, r), w2, key);
    TakenKeepsUp(w2, TextWrite(r, s), w3, key);
    TakenKeepsUp(w3, Restore(3, 0), w, key);
    StepKeepsUpIff(w, Restore(2, 0), key, key("f"));
  }

  lemma FreshKeepsUp(w: World, key: KeyOf)
    requires w.items == []
    ensures Numbered(w.items, w.nextId) && KeepsUp(w, key, key("f"))
  {
  }

  lemma TakenKeepsUp(w: World, e: Event, u: World, key: KeyOf)
    requires Numbered(w.items, w.nextId) && KeepsUp(w, key, key("f")) && Takes(w, e, u, key)
    ensures Numbered(u.items, u.nextId) && KeepsUp(u, key, key("f"))
  {
    hide Numbered, KeepsUp, Enabled, InStep, Apply;
    StepKeepsUpIff(w, e, key, key("f"));
    StepStaysNumbered(w, e, key, key("f"));
  }

  // ---------- two more ways to a stale expectation ----------

  /** A change of which the host kept the bytes before it under the raw id "x", and read back what it left. */
  function RawWrite(before: string, after: string): Event {
    Change(Input(Some("f"), Some(Write), Some(before), after, None,
        Some(RawRef("x", Some(Some(Sha256(Utf8(after)))))), None),
           0, Held(Utf8(after)))
  }

  function RawRecord(id: nat, before: string, after: string): Checkpoint {
    TextRecord(id, before, after).(raw := Some(RawRef("x", Some(Some(Sha256(Utf8(after)))))))
  }

  lemma RawWriteRecords(w: World, before: string, after: string, key: KeyOf) returns (u: World)
    requires w.file == Held(Utf8(before)) && Short(before) && Short(after) && "x" !in w.kept
    requires forall c :: c in w.items ==> c.raw == None
    ensures Takes(w, RawWrite(before, after), u, key)
    ensures u.items == w.items + [RawRecord(w.nextId, before, after)] && u.file == Held(Utf8(after))
  {
    u := Apply(w, RawWrite(before, after), key, key("f"));
  }

  lemma TwoOfFile(a: Checkpoint, b: Checkpoint, key: KeyOf)
    requires a.target == b.target == Some("f")
    ensures Of([a, b], key, key("f")) == [a, b]
  {
    var k := key("f");
    OfNothing(key, k);
    OfCons(b, [], key, k);
    OfCons(a, [b], key, k);
    assert [a] + [b] == [a, b] && [b] + [] == [b];
  }

  lemma RawGoesFirst(a: Checkpoint, b: Checkpoint)
    requires a.raw == None && b.raw.Some? && b.raw.value.id == "x"
    ensures Kept([a, b], {}, {"x"}) == [a]
  {
    assert [a, b][1..] == [b] && [b][1..] == [];
    assert Kept([b], {}, {"x"}) == [];
  }

  /**
   * The raw store drops an entry by its age or its size alone. When that was the file's newest record, an older text
   * record is left to speak for the file, and names what the file held before the last change.
   */
  lemma RawEvictionUncoversOlder(p: string, q: string, r: string, key: KeyOf) returns (w0: World, w1: World, w: World)
    requires p != q && q != r && Short(p) && Short(q) && Short(r)
    ensures w0 == World([], 1, Held(Utf8(p)), map[], map[])
    ensures Takes(w0, TextWrite(p, q), w1, key) && Takes(w1, RawWrite(q, r), w, key)
    ensures Enabled(w, Evict({}, {"x"}), key, key("f"))
    ensures !KeepsUp(Apply(w, Evict({}, {"x"}), key, key("f")), key, key("f"))
  {
    hide Takes, Apply, KeepsUp, Numbered, Of, Kept, RawWrite, TextWrite;
    w0 := World([], 1, Held(Utf8(p)), map[], map[]);
    w1 := TextWriteRecords(w0, p, q, key);
    assert w1.items == [TextRecord(1, p, q)];
    w := RawWriteRecords(w1, q, r, key);
    assert w.items == [TextRecord(1, p, q), RawRecord(2, q, r)];
    FreshKeepsUp(w0, key);
    TakenKeepsUp(w0, TextWrite(p, q), w1, key);
    TakenKeepsUp(w1, RawWrite(q, r), w, key);
    TwoOfFile(w.items[0], w.items[1], key);
    RawGoesFirst(w.items[0], w.items[1]);
    StepKeepsUpIff(w, Evict({}, {"x"}), key, key("f"));
  }

  const EMPTY_DELETE := Change(Input(Some("f"), Some(DeleteFile), Some(""), "", None, None, None), 0, Absent)

  lemma OneOfFile(a: Checkpoint, key: KeyOf)
    requires a.target == Some("f")
    ensures Of([a], key, key("f")) == [a]
  {
    OfNothing(key, key("f"));
    OfCons(a, [], key, key("f"));
    assert [a] + [] == [a];
  }

  /**
   * Deleting a file that a recorded change left empty is skipped as no change, and leaves that record's expectation
   * stale.
   */
  lemma EmptyDeleteIsMissed(p: string, key: KeyOf) returns (w0: World, w: World)
    requires p != "" && Short(p)
    ensures w0 == World([], 1, Held(Utf8(p)), map[], map[]) && Takes(w0, TextWrite(p, ""), w, key)
    ensures Enabled(w, EMPTY_DELETE, key, key("f"))
    ensures !KeepsUp(Apply(w, EMPTY_DELETE, key, key("f")), key, key("f"))
  {
    hide Takes, Apply, KeepsUp, Numbered, Of, TextWrite;
    w0 := World([], 1, Held(Utf8(p)), map[], map[]);
    w := TextWriteRecords(w0, p, "", key);
    assert w.items == [TextRecord(1, p, "")];
    FreshKeepsUp(w0, key);
    TakenKeepsUp(w0, TextWrite(p, ""), w, key);
    OneOfFile(w.items[0], key);
    StepKeepsUpIff(w, EMPTY_DELETE, key, key("f"));
  }
}
