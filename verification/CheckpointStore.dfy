/** The text records' store, beside the raw-byte store it shares its entry limit with. */
module CheckpointStore {
  import opened Basics
  import opened Checkpoints

  // ---------- recording ----------

  /** The state after recording, and the record made, unless the change is skipped. */
  function Recorded(s: Shared, nextId: nat, input: Input, now: int, max: nat,
      unavailable: bool): (Shared, nat, Option<Checkpoint>)
  {
    if Skipped(input) then (s, nextId, None)
    else
      var cp := Made(input, nextId, now);
      (Trimmed(Shared(s.items + [cp], s.live), nextId, max, unavailable), nextId + 1, Some(cp))
  }

  lemma {:induction false} Appended(items: seq<Checkpoint>, cp: Checkpoint)
    requires Numbered(items, cp.id)
    ensures Numbered(items + [cp], cp.id + 1) && NewestId(items + [cp], cp.id)
    ensures InTimeOrder(items) && (forall c :: c in items ==> c.ts <= cp.ts) ==> InTimeOrder(items + [cp])
    ensures TextCount(items + [cp]) == TextCount(items) + (if cp.raw == None then 1 else 0)
  {
    if items == [] {
      assert items + [cp] == [cp];
    } else {
      assert (items + [cp])[1..] == items[1..] + [cp];
      Appended(items[1..], cp);
    }
  }

  /**
   * After a record: the new record is there whenever it is a text record or its raw entry is in use; both kinds fit the
   * limit or nothing but the new record and what is in use is left to drop; nothing was dropped below the limit; ids
   * are distinct and growing.
   */
  lemma RecordSharesTheLimit(s: Shared, nextId: nat, input: Input, now: int, max: nat, unavailable: bool)
    requires Numbered(s.items, nextId) && !Skipped(input)
    ensures var (t, next, made) := Recorded(s, nextId, input, now, max, unavailable);
        var cp := Made(input, nextId, now);
      && made == Some(cp) && next == nextId + 1 && cp.id == nextId
      && (Safe(cp, nextId, s.live) ==> cp in t.items)
      && (t.Total() <= max || NothingMayGo(t, nextId, unavailable))
      && t.Total() >= (if s.Total() + (if cp.raw == None then 1 else 0) <= max then s.Total() else max)
      && Numbered(t.items, next)
  {
    hide TrimStep, NothingMayGo, Numbered, NewestId, Trimmed;
    var cp := Made(input, nextId, now);
    var before := Shared(s.items + [cp], s.live);
    Appended(s.items, cp);
    TrimmedFits(before, nextId, max, unavailable, nextId + 1);
    LeavesNumbered(before, Trimmed(before, nextId, max, unavailable), nextId, nextId + 1);
    if Safe(cp, nextId, s.live) { LeftSafe(before, Trimmed(before, nextId, max, unavailable), nextId, nextId + 1, cp); }
  }

  lemma LeftSafe(s: Shared, t: Shared, kept: nat, next: nat, c: Checkpoint)
    requires Leaves(s, t, kept, next) && c in s.items && Safe(c, kept, s.live)
    ensures c in t.items
  {
  }

  /** With entries recorded in time order, what a record pushes out is the oldest of both kinds. */
  lemma RecordDropsOldestFirst(s: Shared, nextId: nat, input: Input, now: int, max: nat)
    requires Numbered(s.items, nextId) && !Skipped(input)
    requires InTimeOrder(s.items) && LiveInTimeOrder(s.live) && forall c :: c in s.items ==> c.ts <= now
    ensures OldestFirst(Shared(s.items + [Made(input, nextId, now)], s.live),
        Recorded(s, nextId, input, now, max, false).0, nextId)
  {
    hide TrimStep, OldestFirst, Trimmed;
    Appended(s.items, Made(input, nextId, now));
    TrimsOldestFirst(Shared(s.items + [Made(input, nextId, now)], s.live), nextId, max, nextId + 1);
  }

  // ---------- marks and persistence ----------

  function Marked(items: seq<Checkpoint>, ids: set<nat>, mark: Restored): (r: seq<Checkpoint>)
    ensures |r| == |items|
  {
    if items == [] then []
    else [if items[0].id in ids then items[0].(restored := Some(mark)) else items[0]] + Marked(items[1..], ids, mark)
  }

  predicate AllAbove(items: seq<Checkpoint>, id: nat) { forall c :: c in items ==> id < c.id }

  lemma {:induction false} MarkedAbove(items: seq<Checkpoint>, ids: set<nat>, mark: Restored, id: nat)
    requires AllAbove(items, id)
    ensures AllAbove(Marked(items, ids, mark), id)
  {
    if items != [] {
      assert items[0] in items;
      MarkedAbove(items[1..], ids, mark, id);
    }
  }

  lemma {:induction false} MarkedNumbered(items: seq<Checkpoint>, ids: set<nat>, mark: Restored, next: nat)
    requires Numbered(items, next)
    ensures Numbered(Marked(items, ids, mark), next)
  {
    if items != [] {
      var first, rest := Marked(items, ids, mark)[0], Marked(items[1..], ids, mark);
      assert Marked(items, ids, mark)[1..] == rest && first.id == items[0].id;
      MarkedAbove(items[1..], ids, mark, items[0].id);
      MarkedNumbered(items[1..], ids, mark, next);
    }
  }

  lemma {:induction false} MarkedAt(items: seq<Checkpoint>, ids: set<nat>, mark: Restored)
    ensures forall i :: 0 <= i < |items| ==>
              Marked(items, ids, mark)[i] == if items[i].id in ids then items[i].(restored := Some(mark)) else items[i]
  {
    if items != [] { MarkedAt(items[1..], ids, mark); }
  }

  lemma MarkedFacts(items: seq<Checkpoint>, ids: set<nat>, mark: Restored, next: nat)
    ensures forall i :: 0 <= i < |items| ==>
              Marked(items, ids, mark)[i] == if items[i].id in ids then items[i].(restored := Some(mark)) else items[i]
    ensures Numbered(items, next) ==> Numbered(Marked(items, ids, mark), next)
  {
    hide Marked, Numbered;
    MarkedAt(items, ids, mark);
    if Numbered(items, next) { MarkedNumbered(items, ids, mark, next); }
  }

  datatype Saved = Saved(version: int, nextId: Option<nat>, items: seq<Checkpoint>)

  /** The last `max` items; a limit of 0 keeps all of them, as the host's slice from minus zero does. */
  function Last(items: seq<Checkpoint>, max: nat): seq<Checkpoint> {
    if max == 0 || |items| <= max then items else items[|items| - max..]
  }

  function AboveAll(items: seq<Checkpoint>, least: nat): (n: nat)
    ensures n >= least && forall c :: c in items ==> c.id < n
  {
    if items == [] then least else AboveAll(items[1..], if items[0].id + 1 > least then items[0].id + 1 else least)
  }

  lemma {:induction false} AboveAllIsLeast(items: seq<Checkpoint>, least: nat)
    requires forall c :: c in items ==> c.id < least
    ensures AboveAll(items, least) == least
  {
    if items != [] { AboveAllIsLeast(items[1..], least); }
  }

  function LoadedNextId(saved: Saved, max: nat): nat {
    AboveAll(Last(saved.items, max), if saved.nextId.Some? && saved.nextId.value > 1 then saved.nextId.value else 1)
  }

  lemma {:induction false} NumberedBounds(items: seq<Checkpoint>, next: nat)
    requires Numbered(items, next)
    ensures forall c :: c in items ==> c.id < next
  {
    if items != [] { NumberedBounds(items[1..], next); }
  }

  lemma {:induction false} NumberedLast(items: seq<Checkpoint>, n: nat, next: nat, above: nat)
    requires Numbered(items, next) && n <= |items| && (forall c :: c in items[n..] ==> c.id < above)
    ensures Numbered(items[n..], above)
    decreases |items|
  {
    if n > 0 {
      assert items[1..][n - 1..] == items[n..];
      NumberedLast(items[1..], n - 1, next, above);
    } else if items != [] {
      assert items[0..] == items;
      NumberedLast(items[1..], 0, next, above);
      assert items[1..][0..] == items[1..];
    }
  }

  /** Loading keeps ids distinct and below the next one, whatever next id the saved state claims. */
  lemma LoadedIsNumbered(saved: Saved, max: nat, next: nat)
    requires Numbered(saved.items, next)
    ensures Numbered(Last(saved.items, max), LoadedNextId(saved, max))
  {
    hide Numbered, AboveAll;
    var kept := Last(saved.items, max);
    assert kept == saved.items[|saved.items| - |kept|..];
    NumberedLast(saved.items, |saved.items| - |kept|, next, LoadedNextId(saved, max));
  }

  /** Loading what was saved is the identity exactly when the limit does not cut the log. */
  lemma LoadUndoesSave(items: seq<Checkpoint>, nextId: nat, max: nat)
    requires Numbered(items, nextId) && nextId >= 1
    ensures var saved := Saved(1, Some(nextId), items);
      && LoadedNextId(saved, max) == nextId
      && (Last(saved.items, max) == items <==> max == 0 || |items| <= max)
  {
    NumberedBounds(items, nextId);
    AboveAllIsLeast(Last(items, max), nextId);
  }

  // ---------- the stores as the host runs them ----------

  class RawStore {
    var live: seq<RawEntry>
    var unavailable: bool

    /** Drops the oldest entry not in use, when it can; returns the ids its listener hears of. */
    method EvictOldest() returns (gone: set<string>)
      modifies this`live
      ensures var oldest := OldestEvictable(old(live));
        if oldest.Some? && !unavailable then live == WithoutOldest(old(live)) && gone == {oldest.value.id}
        else live == old(live) && gone == {}
    {
      var oldest := OldestEvictable(live);
      if oldest == None || unavailable { return {}; }
      live := WithoutOldest(live);
      gone := {oldest.value.id};
    }
  }

  class CheckpointStore {
    var items: seq<Checkpoint>
    var nextId: nat
    const maxEntries: nat
    var peer: RawStore?

    ghost predicate Valid()
      reads this
    {
      nextId >= 1 && Numbered(items, nextId)
    }

    ghost function State(): Shared
      reads this, peer
    {
      Shared(items, if peer == null then [] else peer.live)
    }

    ghost function PeerUnavailable(): bool
      reads this, peer
    {
      peer != null && peer.unavailable
    }

    constructor (maxEntries: nat)
      ensures Valid() && items == [] && nextId == 1 && peer == null && this.maxEntries == maxEntries
    {
      items, nextId, peer := [], 1, null;
      this.maxEntries := maxEntries;
    }

    /** From now on the limit is shared with this store, or with none. */
    method AttachPeer(peer: RawStore?)
      modifies this`peer
      ensures this.peer == peer && State() == Shared(items, if peer == null then [] else peer.live)
    {
      this.peer := peer;
    }

    method Record(input: Input, now: int) returns (cp: Option<Checkpoint>)
      requires Valid()
      modifies this, peer
      ensures Valid() && peer == old(peer) && PeerUnavailable() == old(PeerUnavailable())
      ensures (State(), nextId, cp)
          == Recorded(old(State()), old(nextId), input, now, maxEntries, old(PeerUnavailable()))
    {
      if Skipped(input) { return None; }
      RecordSharesTheLimit(State(), nextId, input, now, maxEntries, PeerUnavailable());
      var made := Made(input, nextId, now);
      nextId := nextId + 1;
      items := items + [made];
      Trim(made.id);
      return Some(made);
    }

    /** The eviction loop, over this store and its peer. */
    method Trim(kept: nat)
      modifies this`items, peer
      ensures State() == Trimmed(old(State()), kept, maxEntries, old(PeerUnavailable()))
      ensures PeerUnavailable() == old(PeerUnavailable())
    {
      hide Trimmed, FirstText, WithoutFirstText, WithoutRaw, WithoutOldest, OldestEvictable, TextCount;
      while true
        invariant Trimmed(State(), kept, maxEntries, PeerUnavailable())
            == Trimmed(old(State()), kept, maxEntries, old(PeerUnavailable()))
        invariant PeerUnavailable() == old(PeerUnavailable())
        decreases State().Total()
      {
        ghost var s := State();
        TrimmedUnfolds(s, kept, maxEntries, PeerUnavailable());
        StepTakesOne(s, kept, PeerUnavailable());
        if Count() + PeerCount() <= maxEntries { break; }
        var own := FirstText(items);
        var mayDropOwn := own.Some? && own.value.id != kept;
        if peer != null {
          var oldest := OldestEvictable(peer.live);
          if oldest.Some? && (!mayDropOwn || oldest.value.createdAt < own.value.ts) {
            CountWithoutOldest(peer.live);
            var before := PeerCount();
            var gone := peer.EvictOldest();
            var _ := DropRaw(gone);
            WithoutNone(s.items);
            if PeerCount() < before { continue; }
          }
        } else {
          NoneEvictable();
        }
        if !mayDropOwn { break; }
        items := WithoutFirstText(items);
      }
    }

    function Count(): nat
      reads this
    {
      TextCount(items)
    }

    function PeerCount(): nat
      reads this, peer
    {
      if peer == null then 0 else |peer.live|
    }

    /** The text store's own side of the shared limit, asked for by the raw store. */
    method EvictOldest()
      modifies this`items
      ensures items == WithoutFirstText(old(items))
      ensures old(Valid()) ==> Valid()
    {
      WithoutFirstTextFacts(items, nextId);
      items := WithoutFirstText(items);
    }

    method DropRaw(gone: set<string>) returns (dropped: bool)
      modifies this`items
      ensures items == WithoutRaw(old(items), gone)
      ensures dropped <==> exists c :: c in old(items) && c.raw.Some? && c.raw.value.id in gone
      ensures old(Valid()) ==> Valid()
    {
      WithoutRawFacts(items, gone, nextId);
      WithoutRawSize(items, gone);
      var kept := WithoutRaw(items, gone);
      dropped := |kept| != |items|;
      items := kept;
    }

    method MarkRestored(ids: set<nat>, digest: Option<Digest>, at: int)
      requires Valid()
      modifies this`items
      ensures Valid() && items == Marked(old(items), ids, Restored(at, digest))
    {
      hide Marked, Numbered;
      ghost var was, want := items, Marked(items, ids, Restored(at, digest));
      MarkedFacts(items, ids, Restored(at, digest), nextId);
      var i := 0;
      while i < |items|
        invariant 0 <= i <= |items| == |was|
        invariant forall j :: 0 <= j < i ==> items[j] == want[j]
        invariant forall j :: i <= j < |items| ==> items[j] == was[j]
      {
        if items[i].id in ids { items := items[i := items[i].(restored := Some(Restored(at, digest)))]; }
        i := i + 1;
      }
      assert items == want;
    }

    method Serialize() returns (saved: Saved)
      ensures saved == Saved(1, Some(nextId), items)
    {
      saved := Saved(1, Some(nextId), items);
    }

    /** Replaces the state, unless what was saved is missing or of another version. */
    method RestoreFrom(saved: Option<Saved>)
      modifies this`items, this`nextId
      ensures if saved == None || saved.value.version != 1 then items == old(items) && nextId == old(nextId)
              else items == Last(saved.value.items, maxEntries) && nextId == LoadedNextId(saved.value, maxEntries)
      ensures saved.Some? && saved.value.version == 1 && (exists n :: Numbered(saved.value.items, n)) ==> Valid()
    {
      if saved == None || saved.value.version != 1 { return; }
      items := Last(saved.value.items, maxEntries);
      nextId := LoadedNextId(saved.value, maxEntries);
      forall n | Numbered(saved.value.items, n)
        ensures Numbered(items, nextId)
      {
        LoadedIsNumbered(saved.value, maxEntries, n);
      }
    }
  }

  /** A store loaded from another's saved state continues as that one would, when nothing was cut. */
  method Reload(store: CheckpointStore) returns (copy: CheckpointStore)
    requires store.Valid() && (store.maxEntries == 0 || |store.items| <= store.maxEntries)
    ensures copy.Valid() && copy.items == store.items && copy.nextId == store.nextId
  {
    var saved := store.Serialize();
    copy := new CheckpointStore(store.maxEntries);
    LoadUndoesSave(store.items, store.nextId, store.maxEntries);
    copy.RestoreFrom(Some(saved));
  }

  lemma TrimmedUnfolds(s: Shared, kept: nat, max: nat, unavailable: bool)
    ensures Trimmed(s, kept, max, unavailable) ==
            if s.Total() <= max || TrimStep(s, kept, unavailable) == None then s
            else Trimmed(TrimStep(s, kept, unavailable).value, kept, max, unavailable)
  {
  }

  lemma NoneEvictable()
    ensures OldestEvictable([]) == None
  {
  }

  lemma {:induction false} WithoutNone(items: seq<Checkpoint>)
    ensures WithoutRaw(items, {}) == items
  {
    if items != [] { WithoutNone(items[1..]); }
  }

  lemma {:induction false} WithoutRawSize(items: seq<Checkpoint>, gone: set<string>)
    ensures |WithoutRaw(items, gone)| != |items| <==> exists c :: c in items && c.raw.Some? && c.raw.value.id in gone
  {
    if items != [] {
      WithoutRawSize(items[1..], gone);
      assert forall c :: c in items ==> c == items[0] || c in items[1..];
    }
  }
}
