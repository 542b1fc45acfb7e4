/**
 * Command output kept as a head and a tail of bounded size, rendered within a hard ceiling around one marker. The
 * reference is the same rendering of the whole stripped text.
 */
module BoundedCommandOutput {
  import opened Basics
  import opened Utf16
  import opened AnsiEscapes
  import opened AnsiStream

  const COMMAND_OUTPUT_HEAD_CHARS: nat := 8_000
  const COMMAND_OUTPUT_TAIL_CHARS: nat := 8_000
  const ELLIPSIS: CodeUnit := 0x2026
  const NEWLINE: CodeUnit := 0x0a

  /** An ASCII literal as code units. */
  function Units(s: string): Text {
    seq(|s|, i requires 0 <= i < |s| => (s[i] as int % 0x1_0000) as CodeUnit)
  }

  function Decimal(n: nat): (t: Text)
    ensures |t| >= 1
    ensures forall k :: 0 <= k < |t| ==> 0x30 <= t[k] <= 0x39
  {
    var digit := [(0x30 + n % 10) as CodeUnit];
    if n < 10 then digit else Decimal(n / 10) + digit
  }

  lemma {:induction false} DecimalGrows(m: nat, n: nat)
    requires m <= n
    ensures |Decimal(m)| <= |Decimal(n)|
  {
    if m >= 10 {
      DecimalGrows(m / 10, n / 10);
    }
  }

  /** The number a text of decimal digits stands for. */
  function NumberOf(t: Text): nat
    requires forall k :: 0 <= k < |t| ==> 0x30 <= t[k] <= 0x39
  {
    if t == [] then 0 else 10 * NumberOf(t[..|t| - 1]) + (t[|t| - 1] as nat - 0x30)
  }

  lemma {:induction false} DecimalReads(n: nat)
    ensures NumberOf(Decimal(n)) == n
  {
    var digit := [(0x30 + n % 10) as CodeUnit];
    if n < 10 {
      assert Decimal(n)[..0] == [];
    } else {
      DecimalReads(n / 10);
      assert Decimal(n)[..|Decimal(n)| - 1] == Decimal(n / 10);
    }
  }

  function OmittedOutputMarker(omitted: nat): Text {
    [ELLIPSIS] + Units("[omitted ") + Decimal(omitted)
    + Units(" characters; showing command output head and tail]") + [ELLIPSIS]
  }

  function MarkerLine(omitted: nat): Text {
    [NEWLINE] + OmittedOutputMarker(omitted) + [NEWLINE]
  }

  lemma MarkerLineGrows(m: nat, n: nat)
    requires m <= n
    ensures 0 < |MarkerLine(m)| <= |MarkerLine(n)|
  {
    DecimalGrows(m, n);
  }

  /** How many units the head shows of the room left by the marker: the odd unit is the head's. */
  function HeadShare(room: nat): nat { (room + 1) / 2 }

  /** Two sides that fill their halves share the room evenly, and an odd unit is the head's. */
  lemma RoomIsShared(prefix: Text, suffix: Text, room: nat)
    requires room <= 2 * |prefix| && room <= 2 * |suffix|
    ensures var t := TailShare(prefix, suffix, room);
      var h := Min(|prefix|, room - t);
      h + t == room && (h == t || h == t + 1)
  {
  }

  /** The first `k` units, or one fewer when the last of them is the first half of a surrogate pair. */
  function HeadCut(prefix: Text, k: nat): nat
    requires k <= |prefix|
  {
    if k > 0 && IsHighSurrogate(prefix[k - 1]) then k - 1 else k
  }

  /** The last `k` units, or one fewer when the first of them is the second half of a surrogate pair. */
  function TailCut(suffix: Text, k: nat): nat
    requires k <= |suffix|
  {
    if k > 0 && IsLowSurrogate(suffix[|suffix| - k]) then k - 1 else k
  }

  /** The rendering, from what is kept: `total` units seen, of which `head` and `tail` are held. */
  function Snapshot(head: Text, tail: Text, total: nat, maxChars: int): Text
    requires |head| + |tail| <= total
  {
    var ceiling := Max(0, maxChars);
    var dropped := total - |head| - |tail|;
    if dropped == 0 && total <= ceiling then head + tail
    else
      var room := ceiling - |MarkerLine(total)|;
      if room <= 0 then
        var marker := OmittedOutputMarker(total);
        marker[..Min(ceiling, |marker|)]
      else
        if dropped == 0 then TwoEnds(head + tail, head + tail, total, room) else TwoEnds(head, tail, total, room)
  }

  /** What the tail takes of the room, and then the head, which also gets what a short tail leaves. */
  function TailShare(prefix: Text, suffix: Text, room: nat): nat {
    Min(|suffix|, room - Min(|prefix|, HeadShare(room)))
  }

  function HeadShow(prefix: Text, suffix: Text, room: nat): nat {
    HeadCut(prefix, Min(|prefix|, room - TailShare(prefix, suffix, room)))
  }

  function TailShow(prefix: Text, suffix: Text, room: nat): nat {
    TailCut(suffix, TailShare(prefix, suffix, room))
  }

  function TwoEnds(prefix: Text, suffix: Text, total: nat, room: nat): Text {
    var h, t := HeadShow(prefix, suffix, room), TailShow(prefix, suffix, room);
    prefix[..h] + MarkerLine(Max(0, total - h - t)) + suffix[|suffix| - t..]
  }

  /** The reference: everything is kept, and rendered once. */
  function RenderWhole(full: Text, maxChars: int): Text {
    Snapshot(full, [], |full|, maxChars)
  }

  /** What a head and a tail of these sizes hold of the whole text. */
  function HeadOf(full: Text, headLimit: nat): Text { full[..Min(headLimit, |full|)] }

  function TailOf(full: Text, headLimit: nat, tailLimit: nat): Text {
    Last(full[|HeadOf(full, headLimit)|..], tailLimit)
  }

  function Last(s: Text, k: nat): Text { s[|s| - Min(k, |s|)..] }

  /** How much of the whole text the two sides hold. */
  function KeptOf(full: Text, headLimit: nat, tailLimit: nat): nat {
    |HeadOf(full, headLimit)| + |TailOf(full, headLimit, tailLimit)|
  }

  /** The rendering of the whole text as the bounded buffer gives it. */
  function RenderKept(full: Text, headLimit: nat, tailLimit: nat, maxChars: int): Text {
    Snapshot(HeadOf(full, headLimit), TailOf(full, headLimit, tailLimit), |full|, maxChars)
  }

  /** Up to twice the smaller side, forgetting the middle of the output cannot be seen in what is rendered. */
  lemma KeptRendersLikeWhole(full: Text, headLimit: nat, tailLimit: nat, maxChars: int)
    requires maxChars <= 2 * Min(headLimit, tailLimit)
    ensures RenderKept(full, headLimit, tailLimit, maxChars) == RenderWhole(full, maxChars)
  {
    hide RenderKept, RenderWhole;
    if |full| <= headLimit + tailLimit {
      AllIsKept(full, headLimit, tailLimit, maxChars);
    } else {
      OnlyEndsAreKept(full, headLimit, tailLimit, maxChars);
    }
  }

  lemma AllIsKept(full: Text, headLimit: nat, tailLimit: nat, maxChars: int)
    requires |full| <= headLimit + tailLimit
    ensures RenderKept(full, headLimit, tailLimit, maxChars) == RenderWhole(full, maxChars)
  {
    hide TwoEnds, MarkerLine, OmittedOutputMarker;
    assert full + [] == full;
    assert HeadOf(full, headLimit) + TailOf(full, headLimit, tailLimit) == full;
  }

  lemma OnlyEndsAreKept(full: Text, headLimit: nat, tailLimit: nat, maxChars: int)
    requires headLimit + tailLimit < |full| && maxChars <= 2 * Min(headLimit, tailLimit)
    ensures RenderKept(full, headLimit, tailLimit, maxChars) == RenderWhole(full, maxChars)
  {
    hide TwoEnds, MarkerLine, OmittedOutputMarker;
    var head, tail := HeadOf(full, headLimit), TailOf(full, headLimit, tailLimit);
    var room := Max(0, maxChars) - |MarkerLine(|full|)|;
    assert full + [] == full;
    assert |head| == headLimit && |tail| == tailLimit;
    if room > 0 {
      assert 0 < |MarkerLine(|full|)| by { MarkerLineGrows(|full|, |full|); }
      SameEnds(full, head, tail, room);
    }
  }

  lemma CutsAgree(full: Text, head: Text, tail: Text, h: nat, t: nat)
    requires |head| <= |full| && |tail| <= |full| && head == full[..|head|] && tail == full[|full| - |tail|..]
    requires h <= |head| && t <= |tail|
    ensures HeadCut(head, h) == HeadCut(full, h) <= h
    ensures TailCut(tail, t) == TailCut(full, t) <= t
  {
    assert t > 0 ==> tail[|tail| - t] == full[|full| - t];
  }

  /** Both halves of the room fit the sides that are kept, so the ends shown are the ends of the whole text. */
  lemma SameEnds(full: Text, head: Text, tail: Text, room: nat)
    requires |head| + |tail| < |full| && head == full[..|head|] && tail == full[|full| - |tail|..]
    requires HeadShare(room) <= |head| && room - HeadShare(room) <= |tail|
    ensures TwoEnds(head, tail, |full|, room) == TwoEnds(full, full, |full|, room)
  {
    hide MarkerLine, HeadCut, TailCut;
    CutsAgree(full, head, tail, HeadShare(room), room - HeadShare(room));
    var h0 := HeadShare(room);
    var t0 := room - h0;
    assert TailShare(head, tail, room) == t0 && TailShare(full, full, room) == t0;
    var h, t := HeadCut(full, h0), TailCut(full, t0);
    assert head[..h] == full[..h];
    assert tail[|tail| - t..] == full[|full| - t..];
  }

  /** What a reader may rely on, for every ceiling: `shown` is the two ends of the text around one marker. */
  ghost predicate ShowsEnds(full: Text, shown: Text, h: nat, t: nat) {
    && h + t < |full|
    && shown == full[..h] + MarkerLine(|full| - h - t) + full[|full| - t..]
    && !SplitsPair(full, h)
    && !SplitsPair(full, |full| - t)
  }

  /** Of the room beside the marker, or of what is kept if that is less, at most one unit at either end stays unused. */
  predicate UsesRoom(h: nat, t: nat, room: int, kept: nat) {
    Min(room, kept) - 2 <= h + t <= Min(room, kept)
  }

  lemma RoomIsUsed(prefix: Text, suffix: Text, room: nat)
    ensures UsesRoom(HeadShow(prefix, suffix, room), TailShow(prefix, suffix, room), room, |prefix| + |suffix|)
  {
    hide IsHighSurrogate, IsLowSurrogate;
  }

  lemma EndsAreHonest(full: Text, prefix: Text, suffix: Text, room: nat)
    requires |prefix| <= |full| && |suffix| <= |full|
    requires prefix == full[..|prefix|] && suffix == full[|full| - |suffix|..]
    requires |prefix| + |suffix| < |full| || room < |full|
    ensures |TwoEnds(prefix, suffix, |full|, room)| <= room + |MarkerLine(|full|)|
    ensures ShowsEnds(full, TwoEnds(prefix, suffix, |full|, room),
                      HeadShow(prefix, suffix, room), TailShow(prefix, suffix, room))
  {
    hide MarkerLine, HeadShow, TailShow, TwoEnds, SplitsPair;
    var h, t := HeadShow(prefix, suffix, room), TailShow(prefix, suffix, room);
    TwoEndsAre(prefix, suffix, |full|, room);
    RoomIsUsed(prefix, suffix, room);
    ShownKeepsPairs(full, prefix, suffix, room);
    EndsOfEnds(full, prefix, suffix, h, t);
    MarkerLineGrows(|full| - h - t, |full|);
  }

  lemma EndsOfEnds(full: Text, prefix: Text, suffix: Text, h: nat, t: nat)
    requires h <= |prefix| <= |full| && t <= |suffix| <= |full|
    requires prefix == full[..|prefix|] && suffix == full[|full| - |suffix|..]
    ensures prefix[..h] == full[..h] && suffix[|suffix| - t..] == full[|full| - t..]
  {
    DropTwice(full, |full| - |suffix|, |suffix| - t);
  }

  lemma ShownKeepsPairs(full: Text, prefix: Text, suffix: Text, room: nat)
    requires |prefix| <= |full| && |suffix| <= |full|
    requires prefix == full[..|prefix|] && suffix == full[|full| - |suffix|..]
    ensures HeadShow(prefix, suffix, room) <= |prefix| && !SplitsPair(full, HeadShow(prefix, suffix, room))
    ensures TailShow(prefix, suffix, room) <= |suffix| && !SplitsPair(full, |full| - TailShow(prefix, suffix, room))
  {
    hide HeadCut, TailCut, SplitsPair;
    var t := TailShare(prefix, suffix, room);
    CutsKeepPairs(full, prefix, suffix, Min(|prefix|, room - t), t);
  }

  lemma CutsKeepPairs(full: Text, prefix: Text, suffix: Text, h: nat, t: nat)
    requires |prefix| <= |full| && |suffix| <= |full|
    requires prefix == full[..|prefix|] && suffix == full[|full| - |suffix|..]
    requires h <= |prefix| && t <= |suffix|
    ensures HeadCut(prefix, h) <= h && !SplitsPair(full, HeadCut(prefix, h))
    ensures TailCut(suffix, t) <= t && !SplitsPair(full, |full| - TailCut(suffix, t))
  {
    assert t > 0 ==> suffix[|suffix| - t] == full[|full| - t];
  }

  /**
   * For every text, both limits and every ceiling: the rendering fits the ceiling; and it is the whole text, or both
   * ends, using the room there is, around a marker with the exact omitted count and no split surrogate pair, or (no
   * room for either end) the beginning of the marker alone.
   */
  lemma RenderKeptIsHonest(full: Text, headLimit: nat, tailLimit: nat, maxChars: int)
    ensures var shown := RenderKept(full, headLimit, tailLimit, maxChars);
      && |shown| <= Max(0, maxChars)
      && (|| shown == full
          || (exists h: nat, t: nat ::
                && ShowsEnds(full, shown, h, t)
                && UsesRoom(h, t, Max(0, maxChars) - |MarkerLine(|full|)|, KeptOf(full, headLimit, tailLimit)))
          || (Max(0, maxChars) <= |MarkerLine(|full|)| && shown <= OmittedOutputMarker(|full|)))
    ensures |full| <= maxChars && |full| <= headLimit + tailLimit ==>
      RenderKept(full, headLimit, tailLimit, maxChars) == full
  {
    hide TwoEnds, HeadShow, TailShow, MarkerLine, OmittedOutputMarker, ShowsEnds, UsesRoom, RenderKept, KeptOf, EndsOf;
    var room := Max(0, maxChars) - |MarkerLine(|full|)|;
    var kept := KeptOf(full, headLimit, tailLimit);
    RenderedIs(full, headLimit, tailLimit, maxChars);
    assert 0 < |MarkerLine(|full|)| by { MarkerLineGrows(|full|, |full|); }
    if !(kept == |full| && |full| <= Max(0, maxChars)) && room > 0 {
      var (prefix, suffix) := EndsOf(full, headLimit, tailLimit);
      KeptEnds(full, headLimit, tailLimit);
      EndsAreHonest(full, prefix, suffix, room);
      RoomIsUsed(prefix, suffix, room);
      var h, t := HeadShow(prefix, suffix, room), TailShow(prefix, suffix, room);
      SameRoom(h, t, room, |prefix| + |suffix|, kept);
    }
  }

  /** The two ends the rendering is cut from: the kept sides, or the whole text twice where nothing was dropped. */
  function EndsOf(full: Text, headLimit: nat, tailLimit: nat): (Text, Text) {
    if KeptOf(full, headLimit, tailLimit) == |full| then (full, full)
    else (HeadOf(full, headLimit), TailOf(full, headLimit, tailLimit))
  }

  lemma KeptEnds(full: Text, headLimit: nat, tailLimit: nat)
    ensures var (prefix, suffix) := EndsOf(full, headLimit, tailLimit);
      var kept := KeptOf(full, headLimit, tailLimit);
      && |prefix| <= |full| && |suffix| <= |full|
      && prefix == full[..|prefix|] && suffix == full[|full| - |suffix|..]
      && kept <= |full| && (if kept == |full| then prefix == suffix == full else |prefix| + |suffix| == kept)
    ensures KeptOf(full, headLimit, tailLimit) == |full| <==> |full| <= headLimit + tailLimit
  {
  }

  lemma RenderedIs(full: Text, headLimit: nat, tailLimit: nat, maxChars: int)
    ensures var shown := RenderKept(full, headLimit, tailLimit, maxChars);
      var room := Max(0, maxChars) - |MarkerLine(|full|)|;
      var (prefix, suffix) := EndsOf(full, headLimit, tailLimit);
      if KeptOf(full, headLimit, tailLimit) == |full| && |full| <= Max(0, maxChars) then shown == full
      else if room <= 0 then shown <= OmittedOutputMarker(|full|) && |shown| <= Max(0, maxChars)
      else shown == TwoEnds(prefix, suffix, |full|, room)
    ensures KeptOf(full, headLimit, tailLimit) == |full| <==> |full| <= headLimit + tailLimit
  {
    hide TwoEnds, MarkerLine, OmittedOutputMarker;
    if KeptOf(full, headLimit, tailLimit) == |full| {
      assert HeadOf(full, headLimit) + TailOf(full, headLimit, tailLimit) == full;
    }
  }

  lemma SameRoom(h: nat, t: nat, room: nat, kept: nat, less: nat)
    requires UsesRoom(h, t, room, kept) && (kept == less || (room <= less <= kept))
    ensures UsesRoom(h, t, room, less)
  {
  }

  /** The last units of a longer text need only the last units of what came before. */
  lemma LastOfMore(s: Text, more: Text, k: nat)
    ensures Last(s + more, k) == if |more| >= k then Last(more, k) else Last(Last(s, k) + more, k)
  {
    var all := s + more;
    if |more| < k {
      assert all == s[..|s| - |Last(s, k)|] + (Last(s, k) + more);
    }
  }

  /** How the kept ends of a text grow with it: what the head has no room for goes to the tail. */
  lemma KeepMore(full: Text, text: Text, headLimit: nat, tailLimit: nat)
    ensures var head := HeadOf(full, headLimit);
      var taken := Min(headLimit - |head|, |text|);
      && HeadOf(full + text, headLimit) == head + text[..taken]
      && (full + text)[|head| + taken..] == full[|head|..] + text[taken..]
  {
    var head := HeadOf(full, headLimit);
    var taken := Min(headLimit - |head|, |text|);
    assert |head| < |full| ==> taken == 0;
  }

  lemma NothingKept(headLimit: nat, tailLimit: nat)
    ensures HeadOf([], headLimit) == [] && TailOf([], headLimit, tailLimit) == [] && Feed([]) == Pushed([], [])
  {
    hide PushText;
  }

  class BoundedCommandOutput {
    var head: Text
    var tail: Text
    var total: nat
    var finished: bool
    const ansi: AnsiStripper
    const headLimit: nat
    const tailLimit: nat
    /** Everything the stripper handed on so far, and the raw chunks it came from. */
    ghost var full: Text
    ghost var chunks: seq<Text>

    ghost predicate Valid()
      reads this, ansi
    {
      && total == |full|
      && head == HeadOf(full, headLimit)
      && tail == TailOf(full, headLimit, tailLimit)
      && ansi.Valid()
      && (if finished then full == StreamOutput(chunks) else chunks == ansi.chunks && full == Feed(chunks).text)
    }

    constructor (headLimit: nat, tailLimit: nat)
      ensures Valid() && fresh(ansi)
      ensures this.headLimit == headLimit && this.tailLimit == tailLimit
      ensures chunks == [] && !finished
    {
      hide Feed, StreamOutput, HeadOf, TailOf;
      NothingKept(headLimit, tailLimit);
      this.headLimit := headLimit;
      this.tailLimit := tailLimit;
      ansi := new AnsiStripper();
      head, tail, total, finished := [], [], 0, false;
      full, chunks := [], [];
    }

    /** Takes the next piece of the stream, as long as the stream has not ended. */
    method Push(chunk: Text)
      requires Valid()
      modifies this, ansi
      ensures Valid() && finished == old(finished)
      ensures chunks == if old(finished) || chunk == [] then old(chunks) else old(chunks) + [chunk]
    {
      if finished || chunk == [] {
        return;
      }
      var text := ansi.Push(chunk);
      Add(text);
      chunks := ansi.chunks;
    }

    /** The stream ended. Idempotent. */
    method Finish()
      requires Valid()
      modifies this, ansi
      ensures Valid() && finished && chunks == old(chunks)
      ensures full == StreamOutput(chunks)
      ensures old(finished) ==> full == old(full)
    {
      if finished {
        return;
      }
      var rest := ansi.Flush();
      Add(rest);
      finished := true;
    }

    /** Count the text, fill the head first, and keep only the last units of what does not fit it. */
    method Add(text: Text)
      requires total == |full|
      requires head == HeadOf(full, headLimit) && tail == TailOf(full, headLimit, tailLimit)
      modifies this`head, this`tail, this`total, this`full
      ensures full == old(full) + text && total == |full|
      ensures head == HeadOf(full, headLimit) && tail == TailOf(full, headLimit, tailLimit)
    {
      hide Last;
      ghost var before := full[|head|..];
      KeepMore(full, text, headLimit, tailLimit);
      full := full + text;
      total := total + |text|;
      var rest := text;
      if |head| < headLimit {
        var room := headLimit - |head|;
        head := head + rest[..Min(room, |rest|)];
        rest := rest[Min(room, |rest|)..];
      }
      assert head == HeadOf(full, headLimit) && full[|head|..] == before + rest;
      LastOfMore(before, rest, tailLimit);
      if rest == [] {
        assert before + rest == before;
        return;
      }
      tail := if |rest| >= tailLimit then Last(rest, tailLimit) else Last(tail + rest, tailLimit);
    }

    /** The whole output within the ceiling: the stream is over. */
    method RenderWithin(maxChars: int) returns (shown: Text)
      requires Valid()
      modifies this, ansi
      ensures Valid() && finished && chunks == old(chunks)
      ensures shown == RenderKept(StreamOutput(chunks), headLimit, tailLimit, maxChars)
    {
      Finish();
      shown := SnapshotWithin(maxChars);
    }

    /** A live view: nothing is finished and a partial sequence stays pending. */
    method SnapshotWithin(maxChars: int) returns (shown: Text)
      requires Valid()
      ensures shown == RenderKept(full, headLimit, tailLimit, maxChars)
    {
      hide MarkerLine, OmittedOutputMarker, TwoEnds, HeadOf, TailOf, StreamOutput, Feed;
      KeptFit(full, headLimit, tailLimit);
      var ceiling := Max(0, maxChars);
      var dropped := total - |head| - |tail|;
      if dropped == 0 && total <= ceiling {
        return head + tail;
      }
      var room := ceiling - |MarkerLine(total)|;
      if room <= 0 {
        var marker := OmittedOutputMarker(total);
        return marker[..Min(ceiling, |marker|)];
      }
      if dropped == 0 {
        shown := RenderEnds(head + tail, head + tail, total, room);
      } else {
        shown := RenderEnds(head, tail, total, room);
      }
    }
  }

  lemma KeptFit(full: Text, headLimit: nat, tailLimit: nat)
    ensures |HeadOf(full, headLimit)| + |TailOf(full, headLimit, tailLimit)| <= |full|
  {
  }

  lemma TwoEndsAre(prefix: Text, suffix: Text, total: nat, room: nat)
    requires |prefix| + |suffix| < total || room < total
    ensures var h, t := HeadShow(prefix, suffix, room), TailShow(prefix, suffix, room);
      && h <= |prefix| && t <= |suffix| && h + t <= total
      && TwoEnds(prefix, suffix, total, room) == prefix[..h] + MarkerLine(total - h - t) + suffix[|suffix| - t..]
  {
    hide MarkerLine, IsHighSurrogate, IsLowSurrogate;
  }

  /** A cut in front of half a surrogate pair moves by one unit, at either end. */
  method ShownEnds(prefix: Text, suffix: Text, room: nat) returns (headShow: nat, tailShow: nat)
    ensures headShow == HeadShow(prefix, suffix, room) && tailShow == TailShow(prefix, suffix, room)
  {
    hide IsHighSurrogate, IsLowSurrogate;
    headShow := Min(|prefix|, HeadShare(room));
    tailShow := Min(|suffix|, room - headShow);
    // What the tail leaves free is the head's.
    headShow := Min(|prefix|, room - tailShow);
    if headShow > 0 && IsHighSurrogate(prefix[headShow - 1]) {
      headShow := headShow - 1;
    }
    if tailShow > 0 && IsLowSurrogate(suffix[|suffix| - tailShow]) {
      tailShow := tailShow - 1;
    }
  }

  method RenderEnds(prefix: Text, suffix: Text, total: nat, room: nat) returns (shown: Text)
    requires |prefix| + |suffix| < total || room < total
    ensures shown == TwoEnds(prefix, suffix, total, room)
  {
    hide MarkerLine, HeadShow, TailShow, TwoEnds;
    var headShow, tailShow := ShownEnds(prefix, suffix, room);
    TwoEndsAre(prefix, suffix, total, room);
    var omitted := total - headShow - tailShow;
    shown := prefix[..headShow] + MarkerLine(omitted) + suffix[|suffix| - tailShow..];
  }

  /**
   * The buffer stands in for keeping everything: for every chunking in which no over-long sequence is pending at a
   * boundary, and every ceiling up to twice the smaller side, what it renders is the rendering of the whole stream
   * stripped once.
   */
  lemma BufferRefinesKeepingEverything(chunks: seq<Text>, headLimit: nat, tailLimit: nat, maxChars: int)
    requires ShortPending(chunks)
    requires maxChars <= 2 * Min(headLimit, tailLimit)
    ensures RenderKept(StreamOutput(chunks), headLimit, tailLimit, maxChars)
         == RenderWhole(Strip(Flatten(chunks)), maxChars)
  {
    ChunkInvariance(chunks);
    KeptRendersLikeWhole(StreamOutput(chunks), headLimit, tailLimit, maxChars);
  }

  /**
   * A whole string bounded the same way. The limits grow with the ceiling, so the rendering is always the reference.
   */
  method BoundedText(text: Text, maxChars: int) returns (shown: Text)
    ensures shown == RenderWhole(Strip(text), maxChars)
    ensures |shown| <= Max(0, maxChars)
  {
    hide RenderKept, RenderWhole, StreamOutput, Strip;
    var output := new BoundedCommandOutput(Max(COMMAND_OUTPUT_HEAD_CHARS, maxChars),
        Max(COMMAND_OUTPUT_TAIL_CHARS, maxChars));
    output.Push(text);
    shown := output.RenderWithin(maxChars);
    WholeTextRendering(text, output.chunks, output.headLimit, output.tailLimit, maxChars);
  }

  /** A text pushed at once, or nothing for the empty text, rendered under limits that hold the ceiling. */
  lemma WholeTextRendering(text: Text, chunks: seq<Text>, headLimit: nat, tailLimit: nat, maxChars: int)
    requires chunks == if text == [] then [] else [text]
    requires maxChars <= 2 * Min(headLimit, tailLimit)
    ensures var shown := RenderKept(StreamOutput(chunks), headLimit, tailLimit, maxChars);
      shown == RenderWhole(Strip(text), maxChars) && |shown| <= Max(0, maxChars)
  {
    hide RenderKept, RenderWhole, EscapeLength;
    if text == [] {
      assert StreamOutput([]) == Strip([]) by { StripEmpty(); }
    } else {
      OneChunkIsExact(text);
    }
    KeptRendersLikeWhole(Strip(text), headLimit, tailLimit, maxChars);
    RenderKeptIsHonest(Strip(text), headLimit, tailLimit, maxChars);
  }
}
