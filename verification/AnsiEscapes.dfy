/** UTF-16 text, as the host's strings hold it: a sequence of 16-bit code units, lone surrogates included. */
module Utf16 {
  newtype CodeUnit = c: int | 0 <= c < 0x1_0000
  type Text = seq<CodeUnit>

  predicate IsHighSurrogate(c: CodeUnit) { 0xd800 <= c <= 0xdbff }
  predicate IsLowSurrogate(c: CodeUnit) { 0xdc00 <= c <= 0xdfff }

  /** A cut of `t` at `k` that falls between the two halves of a surrogate pair. */
  predicate SplitsPair(t: Text, k: nat)
    requires k <= |t|
  {
    0 < k < |t| && IsHighSurrogate(t[k - 1]) && IsLowSurrogate(t[k])
  }

  function Flatten(ts: seq<Text>): Text {
    if ts == [] then [] else ts[0] + Flatten(ts[1..])
  }

  lemma FlattenEmpty()
    ensures Flatten([]) == []
  {
  }

  lemma {:induction false} FlattenSnoc(ts: seq<Text>, t: Text)
    ensures Flatten(ts + [t]) == Flatten(ts) + t
  {
    if ts == [] {
      assert ts + [t] == [t];
    } else {
      assert (ts + [t])[1..] == ts[1..] + [t];
      FlattenSnoc(ts[1..], t);
    }
  }
}

/**
 * The two regular expressions of the ANSI stripper as matchers over text, and the removal of every complete
 * escape sequence from a text, leftmost first and without overlap.
 */
module AnsiEscapes {
  import opened Basics
  import opened Utf16

  const ESC: CodeUnit := 0x1b
  const BEL: CodeUnit := 0x07
  const BACKSLASH: CodeUnit := 0x5c
  const LBRACKET: CodeUnit := 0x5b
  const RBRACKET: CodeUnit := 0x5d

  predicate IsParameter(c: CodeUnit) { 0x30 <= c <= 0x39 || c == 0x3b || c == 0x3f }
  predicate IsFinal(c: CodeUnit) { 0x41 <= c <= 0x5a || 0x61 <= c <= 0x7a }
  predicate IsOscBody(c: CodeUnit) { c != ESC && c != BEL }

  ghost predicate Parameters(s: Text) { forall k :: 0 <= k < |s| ==> IsParameter(s[k]) }
  ghost predicate OscBody(s: Text) { forall k :: 0 <= k < |s| ==> IsOscBody(s[k]) }

  /** The language of complete sequences: CSI with a final letter, or OSC ended by BEL or by ESC backslash. */
  ghost predicate IsEscape(s: Text) {
    || (|s| >= 3 && s[0] == ESC && s[1] == LBRACKET && Parameters(s[2..|s| - 1]) && IsFinal(s[|s| - 1]))
    || (|s| >= 3 && s[0] == ESC && s[1] == RBRACKET && OscBody(s[2..|s| - 1]) && s[|s| - 1] == BEL)
    || (|s| >= 4 && s[0] == ESC && s[1] == RBRACKET && OscBody(s[2..|s| - 2]) && s[|s| - 2] == ESC
        && s[|s| - 1] == BACKSLASH)
  }

  /** A sequence that has started and not ended: what the stripper's second expression matches up to the end. */
  ghost predicate IsStarted(s: Text) {
    && |s| >= 1 && s[0] == ESC
    && (|s| == 1
        || (s[1] == LBRACKET && Parameters(s[2..]))
        || (s[1] == RBRACKET && OscBody(s[2..]))
        || (|s| >= 3 && s[1] == RBRACKET && OscBody(s[2..|s| - 1]) && s[|s| - 1] == ESC))
  }

  function ParameterRun(s: Text): (n: nat)
    ensures n <= |s| && Parameters(s[..n]) && (n < |s| ==> !IsParameter(s[n]))
  {
    if s == [] || !IsParameter(s[0]) then 0
    else
      var m := ParameterRun(s[1..]);
      assert s[..m + 1] == [s[0]] + s[1..][..m];
      m + 1
  }

  function OscRun(s: Text): (n: nat)
    ensures n <= |s| && OscBody(s[..n]) && (n < |s| ==> !IsOscBody(s[n]))
  {
    if s == [] || !IsOscBody(s[0]) then 0
    else
      var m := OscRun(s[1..]);
      assert s[..m + 1] == [s[0]] + s[1..][..m];
      m + 1
  }

  /** The length of the complete sequence that starts the text, or 0 when none does. */
  function EscapeLength(s: Text): (n: nat)
    ensures n <= |s|
    ensures n > 0 ==> IsEscape(s[..n])
  {
    if |s| < 2 || s[0] != ESC then 0
    else if s[1] == LBRACKET then
      var k := 2 + ParameterRun(s[2..]);
      assert k < |s| ==> s[..k + 1][2..k] == s[2..][..k - 2];
      if k < |s| && IsFinal(s[k]) then k + 1 else 0
    else if s[1] == RBRACKET then
      var k := 2 + OscRun(s[2..]);
      assert k < |s| ==> s[..k + 1][2..k] == s[2..][..k - 2];
      assert k + 1 < |s| ==> s[..k + 2][2..k] == s[2..][..k - 2];
      if k < |s| && s[k] == BEL then k + 1
      else if k + 1 < |s| && s[k] == ESC && s[k + 1] == BACKSLASH then k + 2
      else 0
    else 0
  }

  lemma {:induction false} ParameterRunIs(s: Text, k: nat)
    requires k <= |s| && Parameters(s[..k]) && (k < |s| ==> !IsParameter(s[k]))
    ensures ParameterRun(s) == k
  {
    if k > 0 {
      assert s[0] == s[..k][0];
      assert s[1..][..k - 1] == s[..k][1..];
      ParameterRunIs(s[1..], k - 1);
    }
  }

  lemma {:induction false} OscRunIs(s: Text, k: nat)
    requires k <= |s| && OscBody(s[..k]) && (k < |s| ==> !IsOscBody(s[k]))
    ensures OscRun(s) == k
  {
    if k > 0 {
      assert s[0] == s[..k][0];
      assert s[1..][..k - 1] == s[..k][1..];
      OscRunIs(s[1..], k - 1);
    }
  }

  /** EscapeLength finds the sequence at the start whenever there is one, and its length is the only one. */
  lemma EscapeLengthFinds(s: Text, m: nat)
    requires m <= |s| && IsEscape(s[..m])
    ensures EscapeLength(s) == m
  {
    if s[1] == LBRACKET {
      assert s[2..][..m - 3] == s[..m][2..m - 1];
      ParameterRunIs(s[2..], m - 3);
    } else {
      var b := if s[m - 1] == BEL then m - 1 else m - 2;
      assert s[2..][..b - 2] == s[..m][2..b];
      OscRunIs(s[2..], b - 2);
    }
  }

  /** Started means exactly: a non-empty proper prefix of some complete sequence. */
  lemma StartedIffProperPrefix(s: Text)
    ensures IsStarted(s) <==> s != [] && exists t: Text :: t != [] && IsEscape(s + t)
  {
    if IsStarted(s) {
      var t: Text :=
        if |s| == 1 then [LBRACKET, 0x6d]
        else if s[1] == LBRACKET then [0x6d]
        else if OscBody(s[2..]) then [BEL]
        else [BACKSLASH];
      var e := s + t;
      if |s| == 1 {
        assert e[2..|e| - 1] == [];
      } else if s[1] == LBRACKET || OscBody(s[2..]) {
        assert e[2..|e| - 1] == s[2..];
      } else {
        assert e[2..|e| - 2] == s[2..|s| - 1];
      }
      assert IsEscape(s + t);
    }
    if s != [] && exists t: Text :: t != [] && IsEscape(s + t) {
      var t: Text :| t != [] && IsEscape(s + t);
      PrefixIsStarted(s + t, |s|);
      assert (s + t)[..|s|] == s;
    }
  }

  /** Every non-empty proper prefix of a complete sequence is a started one. */
  lemma PrefixIsStarted(e: Text, k: nat)
    requires IsEscape(e) && 0 < k < |e|
    ensures IsStarted(e[..k])
  {
    if k >= 2 {
      if e[1] == LBRACKET { CsiPrefixIsStarted(e, k); } else { OscPrefixIsStarted(e, k); }
    }
  }

  lemma CsiPrefixIsStarted(e: Text, k: nat)
    requires IsEscape(e) && 2 <= k < |e| && e[1] == LBRACKET
    ensures IsStarted(e[..k])
  {
    BodyOfPrefix(e, k, |e| - 1);
    assert Parameters(e[2..|e| - 1][..k - 2]);
  }

  lemma OscPrefixIsStarted(e: Text, k: nat)
    requires IsEscape(e) && 2 <= k < |e| && e[1] == RBRACKET
    ensures IsStarted(e[..k])
  {
    hide OscBody;
    if e[|e| - 1] == BEL {
      BodyOfPrefix(e, k, |e| - 1);
      OscBodyStarts(e[2..|e| - 1], k - 2);
    } else if k <= |e| - 2 {
      BodyOfPrefix(e, k, |e| - 2);
      OscBodyStarts(e[2..|e| - 2], k - 2);
    } else {
      BodyBeforeLast(e, k);
    }
  }

  lemma OscBodyStarts(s: Text, n: nat)
    requires n <= |s| && OscBody(s)
    ensures OscBody(s[..n])
  {
  }

  lemma BodyOfPrefix(e: Text, k: nat, end: nat)
    requires 2 <= k <= end <= |e|
    ensures e[..k][2..] == e[2..end][..k - 2]
  {
    SliceOfPrefix(e, 2, k, k);
    SliceOfSlice(e, 2, end, k);
  }

  lemma SliceOfPrefix(e: Text, i: nat, j: nat, k: nat)
    requires i <= j <= k <= |e|
    ensures e[..k][i..j] == e[i..j]
  {
  }

  lemma SliceOfSlice(e: Text, i: nat, end: nat, k: nat)
    requires i <= k <= end <= |e|
    ensures e[i..end][..k - i] == e[i..k]
  {
  }

  lemma BodyBeforeLast(e: Text, k: nat)
    requires 3 <= k <= |e|
    ensures e[..k][2..|e[..k]| - 1] == e[2..k - 1]
  {
    SliceOfPrefix(e, 2, k - 1, k);
  }

  /** Inside a complete sequence, past its first unit, nothing starts: neither a complete one nor a pending one. */
  lemma NothingInside(s: Text, k: nat)
    requires 0 < k < EscapeLength(s)
    ensures !IsStarted(s[k..]) && EscapeLength(s[k..]) == 0
  {
    var n := EscapeLength(s);
    var e := s[..n];
    if s[k] == ESC {
      var end := if e[1] == LBRACKET || e[n - 1] == BEL then n - 1 else n - 2;
      assert forall j :: 2 <= j < end ==> e[j] == e[2..end][j - 2];
      assert s[k..][1] == BACKSLASH;
    }
  }

  lemma StartedHasNoEscape(s: Text)
    requires IsStarted(s)
    ensures EscapeLength(s) == 0
  {
    var n := EscapeLength(s);
    if |s| >= 2 && s[1] == LBRACKET {
      ParameterRunIs(s[2..], |s| - 2) by { assert s[2..][..|s| - 2] == s[2..]; }
    } else if |s| >= 2 && OscBody(s[2..]) {
      OscRunIs(s[2..], |s| - 2) by { assert s[2..][..|s| - 2] == s[2..]; }
    } else if |s| >= 2 {
      OscRunIs(s[2..], |s| - 3) by { assert s[2..][..|s| - 3] == s[2..|s| - 1]; }
    }
  }

  /** A sequence complete in `a` is the same sequence in any continuation of `a`. */
  lemma EscapeExtends(a: Text, b: Text)
    requires EscapeLength(a) > 0
    ensures EscapeLength(a + b) == EscapeLength(a)
  {
    var n := EscapeLength(a);
    TakeOfConcat(a, b, n);
    EscapeLengthFinds(a + b, n);
  }

  /** A sequence of `a + b` that ends within `a` was complete in `a`; one that ends past it was pending in `a`. */
  lemma EscapeOfConcat(a: Text, b: Text)
    requires a != [] && EscapeLength(a + b) > 0
    ensures EscapeLength(a + b) <= |a| ==> EscapeLength(a) == EscapeLength(a + b)
    ensures EscapeLength(a + b) > |a| ==> IsStarted(a) && EscapeLength(a) == 0
  {
    var n := EscapeLength(a + b);
    if n <= |a| {
      TakeOfConcat(a, b, n);
      EscapeLengthFinds(a, n);
    } else {
      PrefixIsStarted((a + b)[..n], |a|);
      assert (a + b)[..n][..|a|] == a;
      StartedHasNoEscape(a);
    }
  }

  /** The text with every complete sequence removed: leftmost, non-overlapping. */
  function Strip(s: Text): (r: Text)
    ensures |r| <= |s|
  {
    if s == [] then []
    else
      var n := EscapeLength(s);
      if n > 0 then Strip(s[n..]) else [s[0]] + Strip(s[1..])
  }

  /** Where the leftmost started sequence that reaches the end of the text begins; the length when there is none. */
  function PendingStart(s: Text): (p: nat)
    ensures p <= |s|
    ensures p < |s| ==> IsStarted(s[p..])
  {
    if s == [] || StartedHere(s) then 0
    else
      var p := PendingStart(s[1..]);
      assert p < |s[1..]| ==> s[1..][p..] == s[p + 1..];
      p + 1
  }

  lemma {:induction false} PendingStartIsFirst(s: Text, k: nat)
    requires k < PendingStart(s)
    ensures !IsStarted(s[k..])
  {
    if k > 0 {
      assert s[k..] == s[1..][k - 1..];
      PendingStartIsFirst(s[1..], k - 1);
    } else {
      assert s[0..] == s;
    }
  }

  /** IsStarted as the matcher computes it. */
  predicate StartedHere(s: Text)
    ensures StartedHere(s) <==> IsStarted(s)
  {
    if s == [] || s[0] != ESC then false
    else if |s| == 1 then true
    else if s[1] == LBRACKET then
      var r := ParameterRun(s[2..]);
      assert r == |s| - 2 ==> s[2..][..r] == s[2..];
      r == |s| - 2
    else if s[1] == RBRACKET then
      var r := OscRun(s[2..]);
      assert r == |s| - 2 ==> s[2..][..r] == s[2..];
      assert r == |s| - 3 ==> s[2..][..r] == s[2..|s| - 1];
      assert r < |s| - 3 ==> s[2..|s| - 1][r] == s[2..][r];
      r == |s| - 2 || (r == |s| - 3 && s[|s| - 1] == ESC)
    else false
  }

  /** The part of a text in front of its pending sequence, and the pending sequence (empty when there is none). */
  function Ready(s: Text): Text { s[..PendingStart(s)] }
  function Held(s: Text): Text { s[PendingStart(s)..] }

  lemma ReadyAndHeld(s: Text)
    ensures Ready(s) + Held(s) == s
    ensures Held(s) != [] ==> IsStarted(Held(s))
  {
  }

  /** A complete sequence of the whole text `a + b` that begins in `a` and ends in `b`. */
  ghost predicate Straddles(a: Text, b: Text) {
    exists i :: 0 <= i < |a| && EscapeLength(a[i..] + b) > |a| - i
  }

  /** A started sequence holds no complete one anywhere, so removal leaves it as it is. */
  lemma {:induction false} StripNothing(s: Text)
    requires forall k :: 0 <= k < |s| ==> EscapeLength(s[k..]) == 0
    ensures Strip(s) == s
  {
    if s != [] {
      assert s[0..] == s;
      forall k | 0 <= k < |s[1..]| ensures EscapeLength(s[1..][k..]) == 0 {
        assert s[1..][k..] == s[k + 1..];
      }
      StripNothing(s[1..]);
    }
  }

  lemma StartedHoldsNone(s: Text, k: nat)
    requires IsStarted(s) && k < |s|
    ensures EscapeLength(s[k..]) == 0
  {
    if k == 0 {
      StartedHasNoEscape(s);
      assert s[0..] == s;
    } else {
      StartedIffProperPrefix(s);
      var t: Text :| t != [] && IsEscape(s + t);
      assert (s + t)[..|s + t|] == s + t;
      EscapeLengthFinds(s + t, |s + t|);
      NothingInside(s + t, k);
      DropOfConcat(s, t, k);
      if EscapeLength(s[k..]) > 0 {
        EscapeExtends(s[k..], t);
        assert false;
      }
    }
  }

  lemma StripStarted(s: Text)
    requires IsStarted(s)
    ensures Strip(s) == s
  {
    forall k | 0 <= k < |s| ensures EscapeLength(s[k..]) == 0 {
      StartedHoldsNone(s, k);
    }
    StripNothing(s);
  }

  /** One step of the removal: a complete sequence goes, any other unit stays. */
  lemma StripStep(s: Text)
    requires s != []
    ensures EscapeLength(s) > 0 ==> Strip(s) == Strip(s[EscapeLength(s)..])
    ensures EscapeLength(s) == 0 ==> Strip(s) == [s[0]] + Strip(s[1..])
  {
  }

  /** Removal distributes over a cut that no complete sequence straddles. */
  lemma {:induction false} StripSplits(a: Text, b: Text)
    requires !Straddles(a, b)
    ensures Strip(a + b) == Strip(a) + Strip(b)
    decreases |a|
  {
    hide EscapeLength, IsEscape, IsStarted, Strip, Straddles;
    if a == [] {
      assert a + b == b;
      StripNothing([]);
    } else {
      var n := EscapeLength(a + b);
      StripStep(a + b);
      StripStep(a);
      StepWithinFirst(a, b);
      var k := if n > 0 then n else 1;
      StripSplits(a[k..], b);
      DropOfConcat(a, b, k);
    }
  }

  /** With nothing straddling, the removal's first step over the whole text is its first step over the first half. */
  lemma StepWithinFirst(a: Text, b: Text)
    requires a != [] && !Straddles(a, b)
    ensures EscapeLength(a) == EscapeLength(a + b)
    ensures var k := if EscapeLength(a) > 0 then EscapeLength(a) else 1;
      !Straddles(a[k..], b)
  {
    assert EscapeLength(a[0..] + b) <= |a| - 0;
    assert a[0..] == a;
    if EscapeLength(a + b) > 0 {
      EscapeOfConcat(a, b);
      NoStraddleSuffix(a, b, EscapeLength(a));
    } else {
      NoEscapeInPrefix(a, b);
      NoStraddleSuffix(a, b, 1);
    }
  }

  lemma NoEscapeInPrefix(a: Text, b: Text)
    requires EscapeLength(a + b) == 0
    ensures EscapeLength(a) == 0
  {
    if EscapeLength(a) > 0 {
      EscapeExtends(a, b);
      assert false;
    }
  }

  lemma NoStraddleSuffix(a: Text, b: Text, n: nat)
    requires n <= |a| && !Straddles(a, b)
    ensures !Straddles(a[n..], b)
  {
    forall i | 0 <= i < |a[n..]| ensures EscapeLength(a[n..][i..] + b) <= |a[n..]| - i {
      DropTwice(a, n, i);
    }
  }

  /** A cut that a complete sequence straddles keeps both halves of it: strictly more text comes out. */
  lemma {:induction false} StripStraddled(a: Text, b: Text)
    requires Straddles(a, b)
    ensures |Strip(a + b)| < |Strip(a)| + |Strip(b)|
    decreases |a|
  {
    hide EscapeLength, IsEscape, IsStarted, Strip, Straddles;
    var n := EscapeLength(a + b);
    var i := StraddlePoint(a, b);
    StripStep(a + b);
    StripStep(a);
    if i == 0 {
      assert a[0..] == a;
      EscapeOfConcat(a, b);
      StripStarted(a);
      StripPastSequence(a + b, |a|);
      assert (a + b)[|a|..] == b;
    } else if n > 0 {
      EscapeOfConcat(a, b);
      StripStraddled(a[n..], b);
      DropOfConcat(a, b, n);
    } else {
      NoEscapeInPrefix(a, b);
      StripStraddled(a[1..], b);
      DropOfConcat(a, b, 1);
    }
  }

  /** Where the straddling sequence begins: never inside the sequence or unit that the removal takes first. */
  lemma StraddlePoint(a: Text, b: Text) returns (i: nat)
    requires Straddles(a, b)
    ensures i < |a| && EscapeLength(a[i..] + b) > |a| - i
    ensures var n := EscapeLength(a + b);
      var k := if n > 0 then n else 1;
      i > 0 ==> k <= |a| && Straddles(a[k..], b)
  {
    hide EscapeLength, IsEscape, IsStarted;
    i :| 0 <= i < |a| && EscapeLength(a[i..] + b) > |a| - i;
    var n := EscapeLength(a + b);
    var k := if n > 0 then n else 1;
    DropOfConcat(a, b, i);
    if 0 < i < n {
      NothingInside(a + b, i);
      assert false;
    }
    if i > 0 { StraddlesBehind(a, b, i, k); }
  }

  lemma StraddlesBehind(a: Text, b: Text, i: nat, k: nat)
    requires k <= i < |a| && EscapeLength(a[i..] + b) > |a| - i
    ensures Straddles(a[k..], b)
  {
    hide EscapeLength, IsEscape;
    DropTwice(a, k, i - k);
    assert EscapeLength(a[k..][i - k..] + b) > |a[k..]| - (i - k);
  }

  /** The rest of a complete sequence that was cut inside is ordinary text. */
  lemma {:induction false} StripPastSequence(s: Text, k: nat)
    requires 0 < k <= EscapeLength(s)
    ensures |Strip(s[k..])| == EscapeLength(s) - k + |Strip(s[EscapeLength(s)..])|
    decreases EscapeLength(s) - k
  {
    if k < EscapeLength(s) {
      NothingInside(s, k);
      DropTwice(s, k, 1);
      StripPastSequence(s, k + 1);
    }
  }

  /**
   * One removal over the whole text equals removal on both sides of a cut exactly when no complete sequence of the
   * whole text straddles the cut; otherwise the two halves together come out longer.
   */
  lemma CutIsInvisibleIff(a: Text, b: Text)
    ensures |Strip(a + b)| <= |Strip(a)| + |Strip(b)|
    ensures Strip(a + b) == Strip(a) + Strip(b) <==> !Straddles(a, b)
  {
    if Straddles(a, b) { StripStraddled(a, b); } else { StripSplits(a, b); }
  }

  lemma StartedPrefix(s: Text, k: nat)
    requires IsStarted(s) && 0 < k <= |s|
    ensures IsStarted(s[..k])
  {
    StartedIffProperPrefix(s);
    var t: Text :| t != [] && IsEscape(s + t);
    PrefixIsStarted(s + t, k);
    TakeOfConcat(s, t, k);
  }

  /** Only what was pending can start a sequence pending after more text. */
  lemma {:induction false} HeldOfConcat(t: Text, b: Text)
    ensures Held(t + b) == Held(Held(t) + b)
    ensures Ready(t + b) == Ready(t) + Ready(Held(t) + b)
  {
    hide EscapeLength, IsEscape, IsStarted, Strip, PendingStart, Ready, Held, StartedHere;
    if t == [] || StartedHere(t) {
      AllHeld(t);
    } else {
      assert (t + b)[..|t|] == t;
      if StartedHere(t + b) {
        StartedPrefix(t + b, |t|);
        assert false;
      }
      DropOfConcat(t, b, 1);
      UnfoldHeld(t);
      UnfoldHeld(t + b);
      HeldOfConcat(t[1..], b);
    }
  }

  lemma AllHeld(t: Text)
    requires t == [] || StartedHere(t)
    ensures Held(t) == t && Ready(t) == []
  {
  }

  lemma UnfoldHeld(t: Text)
    requires t != [] && !StartedHere(t)
    ensures Held(t) == Held(t[1..]) && Ready(t) == [t[0]] + Ready(t[1..])
  {
  }

  /** A pending sequence begins outside every complete one, so removal may stop in front of it whatever follows. */
  lemma {:induction false} StripReady(t: Text, b: Text, y: Text, z: Text)
    requires Held(t) + b == y + z
    ensures Strip(Ready(t) + y) == Strip(Ready(t)) + Strip(y)
  {
    hide EscapeLength, IsEscape, IsStarted, Strip, PendingStart;
    var x := Ready(t);
    ReadyAndHeld(t);
    forall i | 0 <= i < |x| ensures EscapeLength(x[i..] + y) <= |x| - i {
      assert t[i..] == x[i..] + Held(t);
      assert x[i..] + y + z == x[i..] + (y + z) == t[i..] + b;
      assert t[i..][|x| - i..] == Held(t);
      if EscapeLength(x[i..] + y) > |x| - i {
        EscapeExtends(x[i..] + y, z);
        EscapeOfConcat(t[i..], b);
        PendingStartIsFirst(t, i);
        if Held(t) != [] { NothingInside(t[i..], |x| - i); }
        assert false;
      }
    }
    StripSplits(x, y);
  }

  /** What is pending holds no complete sequence. */
  lemma StripHeld(t: Text)
    ensures Strip(Held(t)) == Held(t)
  {
    ReadyAndHeld(t);
    if Held(t) != [] { StripStarted(Held(t)); }
  }
}
