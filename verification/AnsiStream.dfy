/**
 * The streaming stripper: each chunk is stripped with the pending sequence before it, and a sequence still pending at
 * the end of the chunk waits for the next one unless it is longer than the limit.
 */
module AnsiStream {
  import opened Utf16
  import opened AnsiEscapes

  const MAX_PENDING_ESCAPE := 4096

  /** What one push hands on, and what it keeps pending. */
  datatype Pushed = Pushed(text: Text, pending: Text)

  function PushText(pending: Text, chunk: Text): Pushed {
    var text := pending + chunk;
    if |Held(text)| <= MAX_PENDING_ESCAPE then Pushed(Strip(Ready(text)), Held(text)) else Pushed(Strip(text), [])
  }

  /** Everything handed on after these chunks, and what is pending then. */
  function Feed(chunks: seq<Text>): Pushed {
    if chunks == [] then Pushed([], [])
    else
      var before := Feed(chunks[..|chunks| - 1]);
      var now := PushText(before.pending, chunks[|chunks| - 1]);
      Pushed(before.text + now.text, now.pending)
  }

  /** The whole output of a stream: every push, then the flush. */
  function StreamOutput(chunks: seq<Text>): Text {
    Feed(chunks).text + Strip(Feed(chunks).pending)
  }

  /** The stream cut after every chunk that ends in a pending sequence over the limit; `open` is the rest. */
  datatype Pieces = Pieces(closed: seq<Text>, open: Text)

  function Cut(chunks: seq<Text>): Pieces {
    if chunks == [] then Pieces([], [])
    else
      var before := Cut(chunks[..|chunks| - 1]);
      var open := before.open + chunks[|chunks| - 1];
      if |Held(open)| > MAX_PENDING_ESCAPE
      then Pieces(before.closed + [open], [])
      else Pieces(before.closed, open)
  }

  function StripEach(pieces: seq<Text>): Text {
    if pieces == [] then [] else StripEach(pieces[..|pieces| - 1]) + Strip(pieces[|pieces| - 1])
  }

  lemma {:induction false} CutKeepsStream(chunks: seq<Text>)
    ensures Flatten(Cut(chunks).closed) + Cut(chunks).open == Flatten(chunks)
  {
    hide PendingStart, Flatten;
    if chunks == [] {
      FlattenEmpty();
    } else {
      var init, last := chunks[..|chunks| - 1], chunks[|chunks| - 1];
      CutKeepsStream(init);
      FlattenSnoc(init, last);
      assert init + [last] == chunks;
      FlattenSnoc(Cut(init).closed, Cut(init).open + last);
    }
  }

  /** One push seen from the open piece of the stream, of which the stripper only kept the pending end. */
  lemma PushOnPiece(open: Text, last: Text)
    ensures var t := open + last;
      var now := PushText(Held(open), last);
      if |Held(t)| > MAX_PENDING_ESCAPE
      then Strip(Ready(open)) + now.text == Strip(t) && now.pending == []
      else Strip(Ready(open)) + now.text == Strip(Ready(t)) && now.pending == Held(t)
  {
    hide EscapeLength, Strip, Ready, Held;
    var text := Held(open) + last;
    HeldOfConcat(open, last);
    ReadyAndHeld(open);
    ReadyAndHeld(text);
    assert open + last == Ready(open) + text;
    StripReady(open, last, text, []);
    StripReady(open, last, Ready(text), Held(text));
  }

  /** What the stripper has handed on and holds back, in terms of the cut stream alone. */
  lemma {:induction false} FeedMeaning(chunks: seq<Text>)
    ensures Feed(chunks).text == StripEach(Cut(chunks).closed) + Strip(Ready(Cut(chunks).open))
    ensures Feed(chunks).pending == Held(Cut(chunks).open)
    ensures |Held(Cut(chunks).open)| <= MAX_PENDING_ESCAPE
  {
    hide Strip, Ready, Held, PushText, StripEach;
    StripEmpty();
    if chunks != [] {
      var init, last := chunks[..|chunks| - 1], chunks[|chunks| - 1];
      FeedMeaning(init);
      PushOnPiece(Cut(init).open, last);
      StripEachSnoc(Cut(init).closed, Cut(init).open + last);
    }
  }

  lemma StripEmpty()
    ensures Strip([]) == [] && Held([]) == [] && Ready([]) == [] && StripEach([]) == []
  {
  }

  lemma StripEachSnoc(pieces: seq<Text>, t: Text)
    ensures StripEach(pieces + [t]) == StripEach(pieces) + Strip(t)
  {
    assert (pieces + [t])[..|pieces|] == pieces;
  }

  /** Every stream: the output is the cut stream, each piece stripped once on its own. */
  lemma StreamStripsEachPiece(chunks: seq<Text>)
    ensures StreamOutput(chunks) == StripEach(Cut(chunks).closed + [Cut(chunks).open])
    ensures Strip(Feed(chunks).pending) == Feed(chunks).pending
  {
    hide Strip, Ready, Held, StripEach, Feed, Cut;
    FeedMeaning(chunks);
    var open := Cut(chunks).open;
    ReadyAndHeld(open);
    assert open + [] == open && Held(open) + [] == Held(open);
    StripReady(open, [], Held(open), []);
    StripHeld(open);
    StripEachSnoc(Cut(chunks).closed, open);
  }

  /** No complete sequence of the stream crosses a cut between pieces. */
  ghost predicate CleanCuts(pieces: seq<Text>) {
    |pieces| > 1 ==> !Straddles(pieces[0], Flatten(pieces[1..])) && CleanCuts(pieces[1..])
  }

  lemma {:induction false} StripEachFront(pieces: seq<Text>)
    requires pieces != []
    ensures StripEach(pieces) == Strip(pieces[0]) + StripEach(pieces[1..])
  {
    var n := |pieces| - 1;
    if n > 0 {
      StripEachFront(pieces[..n]);
      assert pieces[..n][1..] == pieces[1..][..n - 1];
    } else {
      assert pieces[..0] == [];
    }
  }

  lemma {:induction false} StripEachIff(pieces: seq<Text>)
    ensures |Strip(Flatten(pieces))| <= |StripEach(pieces)|
    ensures StripEach(pieces) == Strip(Flatten(pieces)) <==> CleanCuts(pieces)
  {
    hide EscapeLength, IsEscape, IsStarted, Strip, PendingStart, Straddles;
    if pieces == [] {
      StripEmpty();
    } else {
      StripEachFront(pieces);
      StripEachIff(pieces[1..]);
      CutIsInvisibleIff(pieces[0], Flatten(pieces[1..]));
      if |pieces| == 1 {
        NoStraddleEmpty(pieces[0]);
      }
      var whole, split := Strip(Flatten(pieces)), Strip(pieces[0]) + Strip(Flatten(pieces[1..]));
      assert StripEach(pieces[1..]) == Strip(Flatten(pieces[1..])) ==> StripEach(pieces) == split;
      assert StripEach(pieces) == split ==> StripEach(pieces[1..]) == Strip(Flatten(pieces[1..])) by {
        assert StripEach(pieces)[|Strip(pieces[0])|..] == StripEach(pieces[1..]);
        assert split[|Strip(pieces[0])|..] == Strip(Flatten(pieces[1..]));
      }
      if Straddles(pieces[0], Flatten(pieces[1..])) {
        StripStraddled(pieces[0], Flatten(pieces[1..]));
        assert |whole| < |StripEach(pieces)|;
      }
    }
  }

  lemma NoStraddleEmpty(a: Text)
    ensures !Straddles(a, [])
  {
    forall i | 0 <= i < |a| ensures EscapeLength(a[i..] + []) <= |a| - i {
      assert a[i..] + [] == a[i..];
    }
  }

  /**
   * For every stream and every way to chunk it: the output is the stream with every complete sequence removed once,
   * leftmost first, exactly when no complete sequence crosses the end of a pending one that was released as too long.
   */
  lemma StreamExactIff(chunks: seq<Text>)
    ensures StreamOutput(chunks) == Strip(Flatten(chunks))
       <==> CleanCuts(Cut(chunks).closed + [Cut(chunks).open])
  {
    StreamStripsEachPiece(chunks);
    CutKeepsStream(chunks);
    FlattenSnoc(Cut(chunks).closed, Cut(chunks).open);
    StripEachIff(Cut(chunks).closed + [Cut(chunks).open]);
  }

  /** At no chunk boundary of the stream is a sequence over the limit pending. */
  ghost predicate ShortPending(chunks: seq<Text>) {
    chunks != [] ==> |Held(Flatten(chunks))| <= MAX_PENDING_ESCAPE && ShortPending(chunks[..|chunks| - 1])
  }

  lemma {:induction false} ShortPendingNeverCuts(chunks: seq<Text>)
    requires ShortPending(chunks)
    ensures Cut(chunks) == Pieces([], Flatten(chunks))
  {
    hide EscapeLength, IsEscape, IsStarted, Strip, PendingStart, Held;
    if chunks != [] {
      var init, last := chunks[..|chunks| - 1], chunks[|chunks| - 1];
      ShortPendingNeverCuts(init);
      FlattenSnoc(init, last);
      assert init + [last] == chunks;
    }
  }

  /** Chunk invariance: with no over-long pending sequence, how the stream was chunked cannot be seen. */
  lemma ChunkInvariance(chunks: seq<Text>)
    requires ShortPending(chunks)
    ensures StreamOutput(chunks) == Strip(Flatten(chunks))
    ensures Feed(chunks).pending == Held(Flatten(chunks))
  {
    hide EscapeLength, IsEscape, IsStarted, Strip, PendingStart, Straddles;
    ShortPendingNeverCuts(chunks);
    StreamExactIff(chunks);
    FeedMeaning(chunks);
  }

  lemma CutOne(text: Text)
    ensures Cut([text]) == Pieces([], text) || Cut([text]) == Pieces([text], [])
  {
    hide Held;
    assert [text][..0] == [];
    assert [] + text == text && [] + [text] == [text];
  }

  /** A whole text pushed at once and flushed is stripped exactly, however long its last sequence is. */
  lemma OneChunkIsExact(text: Text)
    ensures StreamOutput([text]) == Strip(text)
  {
    hide EscapeLength, IsEscape, IsStarted, Strip, PendingStart, Held, Ready, Cut, StripEach, StreamOutput;
    StreamStripsEachPiece([text]);
    CutOne(text);
    StripEmpty();
    StripEachNothing();
    StripEachSnoc([], text);
    StripEachSnoc([text], []);
    assert [] + [text] == [text];
    assert Strip(text) + [] == Strip(text) && [] + Strip(text) == Strip(text);
  }

  lemma StripEachNothing()
    ensures StripEach([]) == []
  {
  }

  /**
   * The limit is real: an OSC sequence whose body fills it before it ends is handed on as text, escape and all, where
   * one removal over the whole stream leaves nothing.
   */
  lemma LongSequenceLeaks(body: Text)
    requires OscBody(body) && |body| >= MAX_PENDING_ESCAPE - 1
    ensures var chunks := [[ESC, RBRACKET] + body, [BEL]];
      StreamOutput(chunks) == Flatten(chunks) && Strip(Flatten(chunks)) == []
  {
    hide EscapeLength, IsStarted, Strip, PendingStart, Ready, Held, StreamOutput;
    var long: Text := [ESC, RBRACKET] + body;
    var whole := long + [BEL];
    var chunks := [long, [BEL]];
    assert Flatten([[BEL]]) == [BEL] + Flatten([]) == [BEL];
    assert chunks[1..] == [[BEL]];
    assert Flatten(chunks) == whole;
    assert long[2..] == body;
    assert IsEscape(whole[..|whole|]) by {
      assert whole[..|whole|] == whole && whole[2..|whole| - 1] == body;
    }
    EscapeLengthFinds(whole, |whole|);
    StripStep(whole);
    StripEmpty();
    LongIsStarted(body);
    AllHeld(long);
    StripStarted(long);
    NotStarted([BEL]);
    assert chunks[..1] == [long] && [long][..0] == [];
    assert [] + long == long && [] + [BEL] == [BEL];
    assert Cut([]) == Pieces([], []);
    assert Cut([long]) == Pieces([long], []);
    assert Cut(chunks) == Pieces([long], [BEL]);
    StreamStripsEachPiece(chunks);
    StripEachSnoc([], long);
    StripEachSnoc([long], [BEL]);
  }

  lemma LongIsStarted(body: Text)
    requires OscBody(body)
    ensures StartedHere([ESC, RBRACKET] + body)
  {
    assert ([ESC, RBRACKET] + body)[2..] == body;
  }

  lemma NotStarted(s: Text)
    requires |s| == 1 && s[0] != ESC
    ensures Held(s) == [] && Strip(s) == s
  {
    assert Strip(s[1..]) == [];
    assert PendingStart(s[1..]) == 0;
  }

  /** One more chunk: the output goes on by what the push gives, and the push leaves what is pending. */
  lemma FeedMore(chunks: seq<Text>, chunk: Text)
    ensures var before, now := Feed(chunks), PushText(Feed(chunks).pending, chunk);
      Feed(chunks + [chunk]) == Pushed(before.text + now.text, now.pending)
  {
    hide PushText;
    assert (chunks + [chunk])[..|chunks|] == chunks;
  }

  /** The stripper as the host runs it. A flush ends one stream, and the next push begins another. */
  class AnsiStripper {
    var pending: Text
    /** The chunks of the stream so far. */
    ghost var chunks: seq<Text>

    ghost predicate Valid()
      reads this
    {
      pending == Feed(chunks).pending
    }

    constructor ()
      ensures Valid() && chunks == []
    {
      pending, chunks := [], [];
    }

    /** What the pushes of a stream return adds up to the text of its chunks. */
    method Push(chunk: Text) returns (out: Text)
      requires Valid()
      modifies this
      ensures Valid() && chunks == old(chunks) + [chunk]
      ensures Feed(chunks).text == Feed(old(chunks)).text + out
    {
      hide Feed, Strip;
      FeedMore(chunks, chunk);
      var text := pending + chunk;
      chunks := chunks + [chunk];
      pending := [];
      var incomplete := Held(text);
      ReadyAndHeld(text);
      assert incomplete == [] ==> Ready(text) + incomplete == Ready(text);
      if incomplete != [] && |incomplete| <= MAX_PENDING_ESCAPE {
        pending := incomplete;
        text := Ready(text);
      }
      out := Strip(text);
    }

    /** The end of the stream: what was pending comes out as it is, and completes the output. */
    method Flush() returns (rest: Text)
      requires Valid()
      modifies this
      ensures Valid() && chunks == []
      ensures rest == old(pending)
      ensures Feed(old(chunks)).text + rest == StreamOutput(old(chunks))
    {
      hide Strip, PushText, Held;
      StreamStripsEachPiece(chunks);
      rest := Strip(pending);
      pending, chunks := [], [];
    }
  }
}
