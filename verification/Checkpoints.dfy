/** The change log behind the restore points: its records, its shared eviction limit and its store. */
module Checkpoints {
  import opened Basics

  /** What a file can hold: the UTF-8 form of a text, or bytes that are no text. */
  datatype Content = Utf8(text: string) | NotText(bytes: seq<nat>)
  /** SHA-256, taken as collision free. */
  datatype Digest = Sha256(content: Content)

  datatype Operation = Write | DeleteFile | DeleteDirectory
  datatype Reason = EmptyNewString | AmbiguousOccurrence | NotFound | ReplaceAllAmbiguous | RoundtripMismatch
                  | OverwroteExisting | DeletedDirectory | NotUtf8Text

  /** The digest read back after the change: Some(None) for no file, None for a reading that told nothing. */
  datatype RawRef = RawRef(id: string, after: Option<Option<Digest>>)
  datatype Restored = Restored(at: int, digest: Option<Digest>)

  datatype Checkpoint = Checkpoint(
    id: nat, target: Option<string>, operation: Option<Operation>, before: Option<string>, after: string, ts: int,
    truncated: bool, disabled: Option<Reason>, restored: Option<Restored>, raw: Option<RawRef>,
        afterDigest: Option<Digest>)

  datatype Input = Input(
    target: Option<string>, operation: Option<Operation>, before: Option<string>, after: string,
    disabled: Option<Reason>, raw: Option<RawRef>, afterDigest: Option<Digest>)

  const MAX_CONTENT_LENGTH := 200_000

  predicate Skipped(input: Input) { input.before == Some(input.after) && input.raw == None }

  predicate TooBig(input: Input) {
    (input.before.Some? && |input.before.value| > MAX_CONTENT_LENGTH) || |input.after| > MAX_CONTENT_LENGTH
  }

  function Made(input: Input, id: nat, now: int): Checkpoint {
    var tooBig := TooBig(input);
    var disabled := if input.disabled.Some? then input.disabled
                    else if input.operation == Some(DeleteDirectory) then Some(DeletedDirectory) else None;
    Checkpoint(id, if input.target == Some("") then None else input.target, input.operation,
      if tooBig || disabled.Some? then None else input.before, if tooBig then "" else input.after, now,
      tooBig, disabled, None, input.raw, input.afterDigest)
  }

  /**
   * No record keeps a text of more than 200,000 characters: a change with one keeps neither, and is marked truncated.
   * Of any other change the new text is kept, and the old one too unless it is known to be no restore point.
   */
  lemma MadeKeeps(input: Input, id: nat, now: int)
    ensures var c := Made(input, id, now);
      && |c.after| <= 200_000 && (c.before.Some? ==> |c.before.value| <= 200_000)
      && (c.truncated ==>
            && c.before == None && c.after == ""
            && (|input.after| > 200_000 || (input.before.Some? && |input.before.value| > 200_000)))
      && (!c.truncated ==> c.after == input.after && c.before == if c.disabled == None then input.before else None)
      && (c.disabled == None <==> input.disabled == None && input.operation != Some(DeleteDirectory))
      && (input.disabled.Some? ==> c.disabled == input.disabled)
      && c.id == id && c.ts == now && c.restored == None && c.raw == input.raw && c.afterDigest == input.afterDigest
      && c.operation == input.operation && (c.target == input.target || (c.target == None && input.target == Some("")))
  {
  }

  // ---------- the two kinds of entry and their shared limit ----------

  /** One entry of the raw-byte store that is not already being evicted. A pinned entry is in use. */
  datatype RawEntry = RawEntry(id: string, createdAt: int, pinned: bool)

  datatype Shared = Shared(items: seq<Checkpoint>, live: seq<RawEntry>) {
    function Total(): nat { TextCount(items) + |live| }
  }

  function TextCount(items: seq<Checkpoint>): nat {
    if items == [] then 0 else (if items[0].raw == None then 1 else 0) + TextCount(items[1..])
  }

  /** Text records are the ones without a raw entry: all of a log without such, and none of a log of such alone. */
  lemma {:induction false} TextCountIs(items: seq<Checkpoint>)
    ensures TextCount(items) <= |items|
    ensures (forall c :: c in items ==> c.raw == None) <==> TextCount(items) == |items|
    ensures (forall c :: c in items ==> c.raw.Some?) <==> TextCount(items) == 0
  {
    if items != [] {
      TextCountIs(items[1..]);
      assert items[0] in items && forall c :: c in items ==> c == items[0] || c in items[1..];
    }
  }

  function FirstText(items: seq<Checkpoint>): (r: Option<Checkpoint>)
    ensures r.Some? ==> r.value in items && r.value.raw == None
  {
    if items == [] then None else if items[0].raw == None then Some(items[0]) else FirstText(items[1..])
  }

  function WithoutFirstText(items: seq<Checkpoint>): seq<Checkpoint> {
    if items == [] then [] else if items[0].raw == None then items[1..] else [items[0]] + WithoutFirstText(items[1..])
  }

  function OldestEvictable(live: seq<RawEntry>): (r: Option<RawEntry>)
    ensures r.Some? ==> r.value in live && !r.value.pinned
  {
    if live == [] then None else if !live[0].pinned then Some(live[0]) else OldestEvictable(live[1..])
  }

  function WithoutOldest(live: seq<RawEntry>): (r: seq<RawEntry>)
    ensures |r| <= |live|
  {
    if live == [] then [] else if !live[0].pinned then live[1..] else [live[0]] + WithoutOldest(live[1..])
  }

  /** The records that do not stand for one of these raw entries. */
  function WithoutRaw(items: seq<Checkpoint>, gone: set<string>): (r: seq<Checkpoint>)
    ensures |r| <= |items|
  {
    if items == [] then []
    else (if items[0].raw.Some? && items[0].raw.value.id in gone then [] else [items[0]]) + WithoutRaw(items[1..], gone)
  }

  /** One turn of the eviction loop, or None when it gives up. */
  function TrimStep(s: Shared, kept: nat, unavailable: bool): Option<Shared> {
    var own, oldest := FirstText(s.items), OldestEvictable(s.live);
    var mayDropOwn := own.Some? && own.value.id != kept;
    if oldest.Some? && !unavailable && (!mayDropOwn || oldest.value.createdAt < own.value.ts) then
      Some(Shared(WithoutRaw(s.items, {oldest.value.id}), WithoutOldest(s.live)))
    else if mayDropOwn then Some(Shared(WithoutFirstText(s.items), s.live))
    else None
  }

  lemma StepTakesOne(s: Shared, kept: nat, unavailable: bool)
    ensures TrimStep(s, kept, unavailable).Some? ==> TrimStep(s, kept, unavailable).value.Total() == s.Total() - 1
  {
    CountWithoutFirstText(s.items);
    CountWithoutOldest(s.live);
    if OldestEvictable(s.live).Some? { CountWithoutRaw(s.items, {OldestEvictable(s.live).value.id}); }
  }

  lemma {:induction false} CountWithoutFirstText(items: seq<Checkpoint>)
    ensures TextCount(WithoutFirstText(items)) == TextCount(items) - (if FirstText(items).Some? then 1 else 0)
  {
    if items != [] && items[0].raw != None { CountWithoutFirstText(items[1..]); }
  }

  lemma {:induction false} CountWithoutOldest(live: seq<RawEntry>)
    ensures |WithoutOldest(live)| == |live| - (if OldestEvictable(live).Some? then 1 else 0)
  {
    if live != [] && live[0].pinned { CountWithoutOldest(live[1..]); }
  }

  lemma {:induction false} CountWithoutRaw(items: seq<Checkpoint>, gone: set<string>)
    ensures TextCount(WithoutRaw(items, gone)) == TextCount(items)
  {
    if items != [] {
      CountWithoutRaw(items[1..], gone);
      assert ([items[0]] + WithoutRaw(items[1..], gone))[1..] == WithoutRaw(items[1..], gone);
      assert [] + WithoutRaw(items[1..], gone) == WithoutRaw(items[1..], gone);
    }
  }

  /** The eviction loop: each turn drops exactly one counted entry, so it ends. */
  function Trimmed(s: Shared, kept: nat, max: nat, unavailable: bool): Shared
    decreases s.Total()
  {
    StepTakesOne(s, kept, unavailable);
    if s.Total() <= max then s
    else
      match TrimStep(s, kept, unavailable)
      case None => s
      case Some(next) => Trimmed(next, kept, max, unavailable)
  }

  // ---------- what the loop drops ----------

  predicate InTimeOrder(items: seq<Checkpoint>) {
    items != [] ==> (forall c :: c in items[1..] ==> items[0].ts <= c.ts) && InTimeOrder(items[1..])
  }

  predicate LiveInTimeOrder(live: seq<RawEntry>) {
    live != [] ==> (forall e :: e in live[1..] ==> live[0].createdAt <= e.createdAt) && LiveInTimeOrder(live[1..])
  }

  /** Ids grow along the log and stay below `next`. */
  predicate Numbered(items: seq<Checkpoint>, next: nat) {
    items != [] ==>
      items[0].id < next && (forall c :: c in items[1..] ==> items[0].id < c.id) && Numbered(items[1..], next)
  }

  /** No record is newer than the kept one. */
  predicate NewestId(items: seq<Checkpoint>, kept: nat) { forall c :: c in items ==> c.id <= kept }

  predicate Part(smaller: seq<Checkpoint>, larger: seq<Checkpoint>) { forall c :: c in smaller ==> c in larger }
  predicate LivePart(smaller: seq<RawEntry>, larger: seq<RawEntry>) { forall e :: e in smaller ==> e in larger }

  lemma {:induction false} WithoutFirstTextFacts(items: seq<Checkpoint>, next: nat)
    ensures Part(WithoutFirstText(items), items)
    ensures InTimeOrder(items) ==> InTimeOrder(WithoutFirstText(items))
    ensures Numbered(items, next) ==> Numbered(WithoutFirstText(items), next)
    ensures forall c :: c in items && c !in WithoutFirstText(items) ==> FirstText(items) == Some(c)
  {
    if items != [] && items[0].raw != None {
      var rest := items[1..];
      WithoutFirstTextFacts(rest, next);
      assert ([items[0]] + WithoutFirstText(rest))[1..] == WithoutFirstText(rest);
    }
  }

  lemma {:induction false} WithoutRawFacts(items: seq<Checkpoint>, gone: set<string>, next: nat)
    ensures Part(WithoutRaw(items, gone), items)
    ensures InTimeOrder(items) ==> InTimeOrder(WithoutRaw(items, gone))
    ensures Numbered(items, next) ==> Numbered(WithoutRaw(items, gone), next)
    ensures forall c :: c in items ==> (c in WithoutRaw(items, gone) <==> !(c.raw.Some? && c.raw.value.id in gone))
  {
    if items != [] {
      var rest := items[1..];
      WithoutRawFacts(rest, gone, next);
      assert ([items[0]] + WithoutRaw(rest, gone))[1..] == WithoutRaw(rest, gone);
      assert [] + WithoutRaw(rest, gone) == WithoutRaw(rest, gone);
    }
  }

  lemma {:induction false} WithoutOldestFacts(live: seq<RawEntry>)
    ensures LivePart(WithoutOldest(live), live)
    ensures LiveInTimeOrder(live) ==> LiveInTimeOrder(WithoutOldest(live))
    ensures forall e :: e in live && e !in WithoutOldest(live) ==> OldestEvictable(live) == Some(e)
    ensures OldestEvictable(live) == None ==> forall e :: e in live ==> e.pinned
  {
    if live != [] && live[0].pinned {
      var rest := live[1..];
      WithoutOldestFacts(rest);
      assert ([live[0]] + WithoutOldest(rest))[1..] == WithoutOldest(rest);
    }
  }

  predicate MayGo(c: Checkpoint, kept: nat) { c.raw == None && c.id != kept }

  /** `c` and everything it stands for are in use or are the new record. */
  predicate Safe(c: Checkpoint, kept: nat, live: seq<RawEntry>) {
    if c.raw == None then c.id == kept else forall e :: e in live && e.id == c.raw.value.id ==> e.pinned
  }

  predicate NothingMayGo(s: Shared, kept: nat, unavailable: bool) {
    && (forall c :: c in s.items ==> !MayGo(c, kept))
    && (unavailable || forall e :: e in s.live ==> e.pinned)
  }

  lemma {:induction false} NoTextMayGo(items: seq<Checkpoint>, kept: nat, next: nat)
    requires Numbered(items, next) && NewestId(items, kept)
    requires FirstText(items) == None || FirstText(items).value.id == kept
    ensures forall c :: c in items ==> !MayGo(c, kept)
  {
    if items != [] {
      if items[0].raw == None {
        assert forall c :: c in items[1..] ==> c in items && kept < c.id;
      } else {
        assert NewestId(items[1..], kept);
        NoTextMayGo(items[1..], kept, next);
      }
    }
  }

  /** What one turn leaves behind: part of what was there, still numbered, with everything safe still in it. */
  predicate Leaves(s: Shared, t: Shared, kept: nat, next: nat) {
    && Part(t.items, s.items) && LivePart(t.live, s.live) && Numbered(t.items, next)
    && (forall c :: c in s.items && Safe(c, kept, s.live) ==> c in t.items)
    && (forall e :: e in s.live && e.pinned ==> e in t.live)
  }

  lemma TextLeaves(s: Shared, kept: nat, next: nat)
    requires Numbered(s.items, next) && FirstText(s.items).Some? && FirstText(s.items).value.id != kept
    ensures Leaves(s, Shared(WithoutFirstText(s.items), s.live), kept, next)
  {
    hide WithoutFirstText, Numbered, FirstText;
    WithoutFirstTextFacts(s.items, next);
  }

  lemma RawLeaves(s: Shared, kept: nat, next: nat)
    requires Numbered(s.items, next) && OldestEvictable(s.live).Some?
    ensures Leaves(s, Shared(WithoutRaw(s.items, {OldestEvictable(s.live).value.id}), WithoutOldest(s.live)), kept,
        next)
  {
    hide WithoutRaw, WithoutOldest, Numbered, OldestEvictable;
    WithoutOldestFacts(s.live);
    WithoutRawFacts(s.items, {OldestEvictable(s.live).value.id}, next);
  }

  lemma LeavesSafe(s: Shared, t: Shared, kept: nat, next: nat)
    requires Leaves(s, t, kept, next) && NewestId(s.items, kept)
    ensures NewestId(t.items, kept)
    ensures forall c :: Safe(c, kept, s.live) ==> Safe(c, kept, t.live)
  {
    hide Numbered;
  }

  lemma StepLeaves(s: Shared, kept: nat, unavailable: bool, next: nat)
    requires Numbered(s.items, next) && NewestId(s.items, kept)
    ensures match TrimStep(s, kept, unavailable)
            case None => NothingMayGo(s, kept, unavailable)
            case Some(t) => Leaves(s, t, kept, next)
  {
    hide FirstText, WithoutFirstText, WithoutRaw, WithoutOldest, Numbered, OldestEvictable, Leaves;
    if OldestEvictable(s.live).Some? { RawLeaves(s, kept, next); } else { WithoutOldestFacts(s.live); }
    if FirstText(s.items).Some? && FirstText(s.items).value.id != kept {
      TextLeaves(s, kept, next);
    } else {
      NoTextMayGo(s.items, kept, next);
    }
  }

  lemma LeavesChains(s: Shared, t: Shared, u: Shared, kept: nat, next: nat)
    requires Leaves(s, t, kept, next) && Leaves(t, u, kept, next)
    requires forall c :: Safe(c, kept, s.live) ==> Safe(c, kept, t.live)
    ensures Leaves(s, u, kept, next)
  {
    hide Numbered, Safe;
  }

  /**
   * The loop ends with both kinds within the limit, or with nothing left that may go. It never drops below the limit,
   * it keeps the new record and everything in use, and ids stay distinct and growing.
   */
  lemma {:induction false} TrimmedFits(s: Shared, kept: nat, max: nat, unavailable: bool, next: nat)
    requires Numbered(s.items, next) && NewestId(s.items, kept)
    ensures var t := Trimmed(s, kept, max, unavailable);
      && (t.Total() <= max || NothingMayGo(t, kept, unavailable))
      && (if s.Total() <= max then t == s else t.Total() >= max)
      && Leaves(s, t, kept, next)
    decreases s.Total()
  {
    hide TrimStep, NothingMayGo, Leaves, Numbered, Safe;
    StepTakesOne(s, kept, unavailable);
    LeavesItself(s, kept, next);
    if s.Total() > max {
      StepLeaves(s, kept, unavailable, next);
      var step := TrimStep(s, kept, unavailable);
      if step.Some? {
        LeavesNumbered(s, step.value, kept, next);
        LeavesSafe(s, step.value, kept, next);
        TrimmedFits(step.value, kept, max, unavailable, next);
        LeavesChains(s, step.value, Trimmed(step.value, kept, max, unavailable), kept, next);
      }
    }
  }

  lemma LeavesItself(s: Shared, kept: nat, next: nat)
    requires Numbered(s.items, next)
    ensures Leaves(s, s, kept, next)
  {
  }

  lemma LeavesNumbered(s: Shared, t: Shared, kept: nat, next: nat)
    requires Leaves(s, t, kept, next)
    ensures Numbered(t.items, next) && Part(t.items, s.items) && LivePart(t.live, s.live)
  {
  }

  /** Nothing that went is newer than anything that could have gone and stayed. */
  predicate OldestFirst(s: Shared, t: Shared, kept: nat) {
    && (forall c, d :: c in s.items && c !in t.items && c.raw == None && d in t.items && MayGo(d, kept) ==>
        c.ts <= d.ts)
    && (forall c, e :: c in s.items && c !in t.items && c.raw == None && e in t.live && !e.pinned ==>
        c.ts <= e.createdAt)
    && (forall e, f :: e in s.live && e !in t.live && f in t.live && !f.pinned ==> e.createdAt <= f.createdAt)
    && (forall e, d :: e in s.live && e !in t.live && d in t.items && MayGo(d, kept) ==> e.createdAt <= d.ts)
  }

  lemma {:induction false} FirstTextIsOldest(items: seq<Checkpoint>)
    requires InTimeOrder(items) && FirstText(items).Some?
    ensures forall c :: c in items && c.raw == None ==> FirstText(items).value.ts <= c.ts
  {
    if items[0].raw != None { FirstTextIsOldest(items[1..]); }
  }

  lemma {:induction false} OldestIsOldest(live: seq<RawEntry>)
    requires LiveInTimeOrder(live) && OldestEvictable(live).Some?
    ensures forall e :: e in live && !e.pinned ==> OldestEvictable(live).value.createdAt <= e.createdAt
  {
    if live[0].pinned { OldestIsOldest(live[1..]); }
  }

  /** Nothing that may go is older than `ts`. */
  predicate NoneOlder(s: Shared, kept: nat, ts: int) {
    && (forall d :: d in s.items && MayGo(d, kept) ==> ts <= d.ts)
    && (forall e :: e in s.live && !e.pinned ==> ts <= e.createdAt)
  }

  predicate OnlyGone(s: Shared, t: Shared, ts: int) {
    && Part(t.items, s.items) && LivePart(t.live, s.live)
    && (forall c :: c in s.items && c !in t.items && c.raw == None ==> c.ts == ts)
    && (forall e :: e in s.live && e !in t.live ==> e.createdAt == ts)
  }

  lemma OldestGone(s: Shared, t: Shared, kept: nat, ts: int)
    requires NoneOlder(s, kept, ts) && OnlyGone(s, t, ts)
    ensures OldestFirst(s, t, kept)
  {
  }

  lemma TextGoes(s: Shared, kept: nat, next: nat, own: Checkpoint)
    requires InTimeOrder(s.items) && LiveInTimeOrder(s.live) && FirstText(s.items) == Some(own)
    requires OldestEvictable(s.live).Some? ==> own.ts <= OldestEvictable(s.live).value.createdAt
    ensures var t := Shared(WithoutFirstText(s.items), s.live);
      NoneOlder(s, kept, own.ts) && OnlyGone(s, t, own.ts) && InTimeOrder(t.items)
  {
    hide FirstText, WithoutFirstText, OldestEvictable, WithoutOldest, InTimeOrder, LiveInTimeOrder;
    FirstTextIsOldest(s.items);
    WithoutFirstTextFacts(s.items, next);
    WithoutOldestFacts(s.live);
    if OldestEvictable(s.live).Some? { OldestIsOldest(s.live); }
  }

  lemma OldestRawIsOldest(s: Shared, kept: nat, next: nat, oldest: RawEntry)
    requires Numbered(s.items, next) && NewestId(s.items, kept) && InTimeOrder(s.items) && LiveInTimeOrder(s.live)
    requires OldestEvictable(s.live) == Some(oldest)
    requires FirstText(s.items).Some? && FirstText(s.items).value.id != kept ==>
        oldest.createdAt < FirstText(s.items).value.ts
    ensures NoneOlder(s, kept, oldest.createdAt)
  {
    hide FirstText, OldestEvictable, Numbered, InTimeOrder, LiveInTimeOrder;
    var own := FirstText(s.items);
    if own == None || own.value.id == kept { NoTextMayGo(s.items, kept, next); } else { FirstTextIsOldest(s.items); }
    OldestIsOldest(s.live);
  }

  lemma RawGoes(s: Shared, next: nat, oldest: RawEntry)
    requires InTimeOrder(s.items) && LiveInTimeOrder(s.live) && OldestEvictable(s.live) == Some(oldest)
    ensures var t := Shared(WithoutRaw(s.items, {oldest.id}), WithoutOldest(s.live));
      OnlyGone(s, t, oldest.createdAt) && InTimeOrder(t.items) && LiveInTimeOrder(t.live)
  {
    hide WithoutRaw, OldestEvictable, WithoutOldest, InTimeOrder, LiveInTimeOrder;
    WithoutOldestFacts(s.live);
    WithoutRawFacts(s.items, {oldest.id}, next);
  }

  lemma StepIsOldestFirst(s: Shared, t: Shared, kept: nat, next: nat)
    requires Numbered(s.items, next) && NewestId(s.items, kept) && InTimeOrder(s.items) && LiveInTimeOrder(s.live)
    requires TrimStep(s, kept, false) == Some(t)
    ensures OldestFirst(s, t, kept) && InTimeOrder(t.items) && LiveInTimeOrder(t.live)
  {
    hide FirstText, WithoutFirstText, OldestEvictable, WithoutOldest, WithoutRaw, Numbered, InTimeOrder,
        LiveInTimeOrder;
    hide OldestFirst, NoneOlder, OnlyGone;
    var own, oldest := FirstText(s.items), OldestEvictable(s.live);
    if oldest.Some? && (own == None || own.value.id == kept || oldest.value.createdAt < own.value.ts) {
      OldestRawIsOldest(s, kept, next, oldest.value);
      RawGoes(s, next, oldest.value);
      OldestGone(s, t, kept, oldest.value.createdAt);
    } else {
      TextGoes(s, kept, next, own.value);
      OldestGone(s, t, kept, own.value.ts);
    }
  }

  lemma OldestFirstChains(s: Shared, t: Shared, u: Shared, kept: nat)
    requires OldestFirst(s, t, kept) && OldestFirst(t, u, kept) && Part(u.items, t.items) && LivePart(u.live, t.live)
    ensures OldestFirst(s, u, kept)
  {
  }

  /** With entries in time order and the raw store able to drop, evictions go oldest first across both kinds. */
  lemma {:induction false} TrimsOldestFirst(s: Shared, kept: nat, max: nat, next: nat)
    requires Numbered(s.items, next) && NewestId(s.items, kept) && InTimeOrder(s.items) && LiveInTimeOrder(s.live)
    ensures OldestFirst(s, Trimmed(s, kept, max, false), kept)
    decreases s.Total()
  {
    hide TrimStep, OldestFirst, Leaves, Numbered, Safe, InTimeOrder, LiveInTimeOrder, Part, LivePart, NothingMayGo;
    StepTakesOne(s, kept, false);
    var step := TrimStep(s, kept, false);
    if s.Total() > max && step.Some? {
      StepIsOldestFirst(s, step.value, kept, next);
      StepLeaves(s, kept, false, next);
      LeavesNumbered(s, step.value, kept, next);
      LeavesSafe(s, step.value, kept, next);
      TrimsOldestFirst(step.value, kept, max, next);
      TrimmedFits(step.value, kept, max, false, next);
      LeavesNumbered(step.value, Trimmed(step.value, kept, max, false), kept, next);
      OldestFirstChains(s, step.value, Trimmed(step.value, kept, max, false), kept);
    } else {
      NothingWent(s, kept);
    }
  }

  lemma TextCountCons(c: Checkpoint, rest: seq<Checkpoint>)
    ensures TextCount([c] + rest) == (if c.raw == None then 1 else 0) + TextCount(rest)
  {
    assert ([c] + rest)[1..] == rest;
  }

  /** Oldest first is said of what may go: a raw entry in use outlives a newer text record, of whatever file. */
  lemma PinnedOutlivesNewer(a: Checkpoint, b: Checkpoint, c: Checkpoint, e: RawEntry, unavailable: bool)
    requires a.raw.Some? && e.id == a.raw.value.id && e.pinned && b.raw == None && c.raw == None && b.id != c.id
    ensures Trimmed(Shared([a, b, c], [e]), c.id, 2, unavailable) == Shared([a, c], [e])
  {
    assert [a, b, c][1..] == [b, c] && [b, c][1..] == [c] && [c][1..] == [] && [e][1..] == [];
    assert FirstText([b, c]) == Some(b) && WithoutFirstText([b, c]) == [c];
    assert FirstText([a, b, c]) == Some(b) && WithoutFirstText([a, b, c]) == [a] + [c];
    assert [a] + [c] == [a, c] && [a, c][1..] == [c];
    assert OldestEvictable([e]) == None;
    var s := Shared([a, b, c], [e]);
    TextCountCons(c, []);
    TextCountCons(b, [c]);
    TextCountCons(a, [b, c]);
    TextCountCons(a, [c]);
    assert [c] + [] == [c] && [b] + [c] == [b, c] && [a] + [b, c] == [a, b, c];
    assert TrimStep(s, c.id, unavailable) == Some(Shared([a, c], [e]));
  }

  lemma NothingWent(s: Shared, kept: nat)
    ensures OldestFirst(s, s, kept)
  {
  }
}
