/**
 * Two independent readers of one command text: the scanner, which cuts at separators outside quotes, and the splitter,
 * which cuts at every separator. How their pieces relate for every command the scanner accepts.
 */
module RawSegments {
  import opened Basics
  import opened CommandText
  import opened CommandShell
  import opened CommandScanner

  /** How long the separator is that begins the text, outside quotes; 0 for none. */
  function SeparatorLength(s: string, g: Grammar): (n: nat)
    requires s != ""
    ensures n <= |s| && (n > 0 ==> s[..n] == "&&" || s[..n] == ";")
  {
    if "&&" <= s then 2 else if s[0] == ';' && g != Cmd then 1 else 0
  }

  /** What the scanner takes of a text that begins with no separator: a whole quoted span, or one character. */
  function Front(s: string, g: Grammar): (f: string)
    requires s != ""
    ensures f != "" && f <= s && f[0] == s[0]
  {
    if Opens(s[0], g) && ReadQuoted(s[1..], s[0], g).Some? then
      var span := ReadQuoted(s[1..], s[0], g).value.span;
      QuotedFront(s, g);
      [s[0]] + span + [s[0]]
    else [s[0]]
  }

  lemma QuotedFront(s: string, g: Grammar)
    requires s != "" && ReadQuoted(s[1..], s[0], g).Some?
    ensures var r := ReadQuoted(s[1..], s[0], g).value;
      s == [s[0]] + r.span + [s[0]] + r.rest && s[|r.span| + 2..] == r.rest
  {
    hide ReadQuoted;
    var r := ReadQuoted(s[1..], s[0], g).value;
    assert s == [s[0]] + (r.span + [s[0]] + r.rest);
  }

  /** The command text cut where the scanner begins a new segment. */
  function Raw(s: string, g: Grammar): (r: seq<string>)
    ensures |r| >= 1
    decreases |s|
  {
    if s == "" then [""]
    else if SeparatorLength(s, g) > 0 then [""] + Raw(s[SeparatorLength(s, g)..], g)
    else Prepend(Front(s, g), Raw(s[|Front(s, g)|..], g))
  }

  /** The separators between those pieces. */
  function Separators(s: string, g: Grammar): (r: seq<string>)
    ensures |r| + 1 == |Raw(s, g)|
    ensures forall k :: 0 <= k < |r| ==> r[k] == "&&" || r[k] == ";"
    decreases |s|
  {
    if s == "" then []
    else if SeparatorLength(s, g) > 0 then [s[..SeparatorLength(s, g)]] + Separators(s[SeparatorLength(s, g)..], g)
    else Separators(s[|Front(s, g)|..], g)
  }

  function Interleaved(pieces: seq<string>, separators: seq<string>): string
    requires |pieces| == |separators| + 1
  {
    if separators == [] then pieces[0] else pieces[0] + (separators[0] + Interleaved(pieces[1..], separators[1..]))
  }

  lemma Associates(a: string, b: string, c: string)
    ensures a + b + c == a + (b + c)
  {
  }

  lemma InterleavedPrepend(front: string, pieces: seq<string>, separators: seq<string>)
    requires |pieces| == |separators| + 1
    ensures Interleaved(Prepend(front, pieces), separators) == front + Interleaved(pieces, separators)
  {
    if separators != [] {
      assert Prepend(front, pieces)[1..] == pieces[1..];
      Associates(front, pieces[0], separators[0] + Interleaved(pieces[1..], separators[1..]));
    }
  }

  lemma InterleavedCons(separator: string, pieces: seq<string>, separators: seq<string>)
    requires |pieces| == |separators| + 1
    ensures Interleaved([""] + pieces, [separator] + separators) == separator + Interleaved(pieces, separators)
  {
    assert ([""] + pieces)[1..] == pieces && ([separator] + separators)[1..] == separators;
    assert forall t: string :: "" + t == t;
  }

  lemma RawUnfolds(s: string, g: Grammar)
    ensures s == "" ==> Raw(s, g) == [""]
    ensures s != "" && SeparatorLength(s, g) > 0 ==> Raw(s, g) == [""] + Raw(s[SeparatorLength(s, g)..], g)
    ensures s != "" && SeparatorLength(s, g) == 0 ==> Raw(s, g) == Prepend(Front(s, g), Raw(s[|Front(s, g)|..], g))
  {
    hide Front, SeparatorLength;
  }

  lemma SeparatorsUnfold(s: string, g: Grammar)
    ensures s == "" ==> Separators(s, g) == []
    ensures s != "" && SeparatorLength(s, g) > 0 ==>
              Separators(s, g) == [s[..SeparatorLength(s, g)]] + Separators(s[SeparatorLength(s, g)..], g)
    ensures s != "" && SeparatorLength(s, g) == 0 ==> Separators(s, g) == Separators(s[|Front(s, g)|..], g)
  {
    hide Front, SeparatorLength;
  }

  /** The pieces and the separators are the whole text. */
  lemma {:induction false} RawIsWholeText(s: string, g: Grammar)
    ensures Interleaved(Raw(s, g), Separators(s, g)) == s
    decreases |s|
  {
    hide Front, SeparatorLength, Interleaved, Raw, Separators, Prepend;
    RawUnfolds(s, g);
    SeparatorsUnfold(s, g);
    if s == "" {
      InterleavedOne("");
    } else if SeparatorLength(s, g) > 0 {
      var n := SeparatorLength(s, g);
      RawIsWholeText(s[n..], g);
      InterleavedCons(s[..n], Raw(s[n..], g), Separators(s[n..], g));
      assert s == s[..n] + s[n..];
    } else {
      var f := Front(s, g);
      RawIsWholeText(s[|f|..], g);
      InterleavedPrepend(f, Raw(s[|f|..], g), Separators(s[|f|..], g));
      assert s == f + s[|f|..];
    }
  }

  lemma InterleavedOne(piece: string)
    ensures Interleaved([piece], []) == piece
  {
  }

  // ---------- the splitter on the scanner's pieces ----------

  function Glue(a: seq<string>, b: seq<string>): (r: seq<string>)
    requires |a| >= 1 && |b| >= 1
    ensures |r| == |a| + |b| - 1
  {
    if |a| == 1 then Prepend(a[0], b) else [a[0]] + Glue(a[1..], b)
  }

  lemma {:induction false} GluePrepend(c: string, a: seq<string>, b: seq<string>)
    requires |a| >= 1 && |b| >= 1
    ensures Glue(Prepend(c, a), b) == Prepend(c, Glue(a, b))
  {
    if |a| == 1 {
      assert c + a[0] + b[0] == c + (a[0] + b[0]);
    } else {
      assert Prepend(c, a)[1..] == a[1..];
      assert Glue(a, b)[1..] == Glue(a[1..], b);
    }
  }

  lemma PrependMore(front: string, b: seq<string>, c: seq<string>)
    requires |b| >= 1
    ensures Prepend(front, b + c) == Prepend(front, b) + c
  {
    assert (b + c)[1..] == b[1..] + c;
  }

  lemma {:induction false} GlueMore(a: seq<string>, b: seq<string>, c: seq<string>)
    requires |a| >= 1 && |b| >= 1
    ensures Glue(a, b + c) == Glue(a, b) + c
  {
    if |a| == 1 {
      PrependMore(a[0], b, c);
    } else {
      GlueMore(a[1..], b, c);
    }
  }

  lemma PrependNothing(b: seq<string>)
    requires |b| >= 1
    ensures Prepend("", b) == b
  {
    assert "" + b[0] == b[0];
    assert [b[0]] + b[1..] == b;
  }

  /** Splitting a text whose first part does not end in an ampersand glues the splits of its two parts. */
  lemma {:induction false} SplitGlues(a: string, t: string, semi: bool, amp: bool)
    requires a != "" && a[|a| - 1] != '&'
    ensures SplitAt(a + t, semi, amp) == Glue(SplitAt(a, semi, amp), SplitAt(t, semi, amp))
    decreases |a|
  {
    var s := a + t;
    assert s[0] == a[0] && s[1..] == a[1..] + t;
    assert |a| > 1 ==> s[1] == a[1] && s[2..] == a[2..] + t;
    assert "&&" <= s <==> "&&" <= a;
    PrependNothing(SplitAt(t, semi, amp));
    if amp && "&&" <= a {
      SplitGlues(a[2..], t, semi, amp);
      assert SplitAt(a, semi, amp)[1..] == SplitAt(a[2..], semi, amp);
    } else if semi && a[0] == ';' {
      assert SplitAt(a, semi, amp)[1..] == SplitAt(a[1..], semi, amp);
      if |a| == 1 {
        assert a[1..] == "" && a[1..] + t == t;
        assert SplitAt(a, semi, amp) == ["", ""];
        assert [""] + SplitAt(t, semi, amp) == Glue(["", ""], SplitAt(t, semi, amp));
      } else {
        SplitGlues(a[1..], t, semi, amp);
      }
    } else {
      if |a| == 1 {
        assert a[1..] == "" && a[1..] + t == t;
        assert [a[0]] + "" == [a[0]];
        assert SplitAt(a, semi, amp) == Prepend([a[0]], [""]) == [[a[0]]];
      } else {
        SplitGlues(a[1..], t, semi, amp);
        GluePrepend([a[0]], SplitAt(a[1..], semi, amp), SplitAt(t, semi, amp));
      }
    }
  }

  function SplitEach(pieces: seq<string>, semi: bool, amp: bool): seq<string> {
    if pieces == [] then [] else SplitAt(pieces[0], semi, amp) + SplitEach(pieces[1..], semi, amp)
  }

  lemma SplitEachPrepend(q: string, pieces: seq<string>, semi: bool, amp: bool)
    requires q != "" && q[|q| - 1] != '&' && |pieces| >= 1
    ensures SplitEach(Prepend(q, pieces), semi, amp) == Glue(SplitAt(q, semi, amp), SplitEach(pieces, semi, amp))
  {
    hide SplitAt;
    assert Prepend(q, pieces)[1..] == pieces[1..];
    SplitGlues(q, pieces[0], semi, amp);
    GlueMore(SplitAt(q, semi, amp), SplitAt(pieces[0], semi, amp), SplitEach(pieces[1..], semi, amp));
  }

  lemma GlueHead(a: seq<string>, b: seq<string>)
    requires |a| >= 1 && |b| >= 1
    ensures Glue(a, b)[0] == if |a| == 1 then a[0] + b[0] else a[0]
  {
  }

  // ---------- the text outside quotes ----------

  /** Characters a quoted span is made of. */
  predicate Spanned(span: string, q: char, g: Grammar) {
    span != "" ==> span[0] != q && !RejectedInside(span[0], q, g) && Spanned(span[1..], q, g)
  }

  lemma {:induction false} SpanIsSpanned(s: string, q: char, g: Grammar)
    requires ReadQuoted(s, q, g).Some?
    ensures Spanned(ReadQuoted(s, q, g).value.span, q, g)
  {
    hide RejectedInside;
    if s[0] != q {
      SpanIsSpanned(s[1..], q, g);
      var span := ReadQuoted(s[1..], q, g).value.span;
      assert ([s[0]] + span)[1..] == span;
    }
  }

  /** A span without its closing quote leaves the quote open; with it, the text behind is outside again. */
  lemma {:induction false} InsideSpan(span: string, q: char, rest: string, g: Grammar)
    requires Spanned(span, q, g) && IsQuote(q) && g != Neutral && (rest != "" ==> rest[0] != q)
    ensures Inside(span, q, g) == None
    ensures Inside(span + [q] + rest, q, g) == Prefixed(" ", Outside(rest, g))
  {
    var s := span + [q] + rest;
    if span == "" {
      assert s[1..] == rest;
    } else {
      assert s[0] == span[0] && s[1..] == span[1..] + [q] + rest;
      InsideSpan(span[1..], q, rest, g);
    }
  }

  lemma {:induction false} SpannedPrefix(span: string, k: nat, q: char, g: Grammar)
    requires Spanned(span, q, g) && k <= |span|
    ensures Spanned(span[..k], q, g)
  {
    hide RejectedInside;
    if k > 0 {
      SpannedPrefix(span[1..], k - 1, q, g);
      assert span[..k][1..] == span[1..][..k - 1];
    }
  }

  /**
   * A front as the scanner takes it: one character that neither opens a quote nor begins a cut, or a whole quoted
   * span.
   */
  ghost predicate IsFront(f: string, g: Grammar) {
    && f != "" && f[0] != '&' && !(g != Cmd && f[0] == ';')
    && (if Opens(f[0], g) then |f| >= 2 && Spanned(f[1..|f| - 1], f[0], g) && f[|f| - 1] == f[0] else |f| == 1)
  }

  /** What stands for a front outside quotes. */
  function FrontText(f: string, g: Grammar): string
    requires f != ""
  {
    if Opens(f[0], g) then " " else f
  }

  lemma FrontOutside(f: string, rest: string, g: Grammar)
    requires IsFront(f, g) && g != Neutral && (rest != "" ==> rest[0] != f[0] || !Opens(f[0], g))
    ensures Outside(f + rest, g) == Prefixed(FrontText(f, g), Outside(rest, g))
  {
    var s := f + rest;
    if Opens(f[0], g) {
      assert s[1..] == f[1..|f| - 1] + [f[0]] + rest;
      InsideSpan(f[1..|f| - 1], f[0], rest, g);
    } else {
      assert s[1..] == rest && [s[0]] == f;
    }
  }

  lemma FrontUncut(f: string, rest: string, g: Grammar, amp: bool)
    requires IsFront(f, g)
    ensures SplitAt(FrontText(f, g) + rest, g != Cmd, amp) == Prepend(FrontText(f, g), SplitAt(rest, g != Cmd, amp))
  {
    var t := FrontText(f, g);
    assert |t| == 1 && (t + rest)[1..] == rest && [(t + rest)[0]] == t;
  }

  lemma {:induction false} CutIsInside(s: string, semi: bool, amp: bool)
    ensures var first := SplitAt(s, semi, amp)[0];
      && first <= s
      && (|SplitAt(s, semi, amp)| == 1 ==> first == s)
      && (|SplitAt(s, semi, amp)| > 1 ==> |first| < |s| && (s[|first|] == '&' || s[|first|] == ';'))
  {
    if s != "" && !(amp && "&&" <= s) && !(semi && s[0] == ';') {
      CutIsInside(s[1..], semi, amp);
    }
  }

  /** The splitter's first cut of a text, if there is one, lies inside a quote. */
  predicate FirstCutIsQuoted(s: string, g: Grammar, amp: bool) {
    var pieces := SplitAt(s, g != Cmd, amp);
    |pieces| > 1 ==> Outside(pieces[0], g) == None
  }

  /** The part of a quoted span in front of a cut leaves its quote open. */
  lemma QuotedCut(f: string, first: string, g: Grammar)
    requires IsFront(f, g) && g != Neutral && Opens(f[0], g) && first != "" && first <= f && |first| < |f|
    ensures Outside(first, g) == None
  {
    var span, k := f[1..|f| - 1], |first| - 1;
    assert first[1..] == span[..k];
    SpannedPrefix(span, k, f[0], g);
    InsideSpan(span[..k], f[0], "", g);
  }

  /** A cut within a front lies inside its quotes. */
  lemma FrontCut(f: string, g: Grammar, amp: bool)
    requires IsFront(f, g) && g != Neutral
    ensures FirstCutIsQuoted(f, g, amp)
    ensures !Opens(f[0], g) ==> SplitAt(f, g != Cmd, amp) == [f]
  {
    hide Outside;
    var pieces := SplitAt(f, g != Cmd, amp);
    CutIsInside(f, g != Cmd, amp);
    if !Opens(f[0], g) {
      assert f[1..] == "" && [f[0]] + "" == f;
    } else if |pieces| > 1 {
      QuotedCut(f, pieces[0], g);
    }
  }

  lemma FrontThenCut(f: string, rest: string, g: Grammar, amp: bool)
    requires IsFront(f, g) && g != Neutral && f[|f| - 1] != '&' && (rest != "" ==> rest[0] != f[0] || !Opens(f[0], g))
    requires FirstCutIsQuoted(rest, g, amp)
    ensures FirstCutIsQuoted(f + rest, g, amp)
  {
    hide SplitAt, Outside, Inside, IsFront, Opens;
    var semi := g != Cmd;
    var a, b := SplitAt(f, semi, amp), SplitAt(rest, semi, amp);
    FrontIsNonEmpty(f, g);
    SplitGlues(f, rest, semi, amp);
    GlueHead(a, b);
    FrontCut(f, g, amp);
    CutIsInside(f, semi, amp);
    CutIsInside(rest, semi, amp);
    if |a| == 1 && |b| > 1 {
      FrontOutside(f, b[0], g);
    }
  }

  lemma FrontIsNonEmpty(f: string, g: Grammar)
    requires IsFront(f, g)
    ensures f != ""
  {
  }

  // ---------- the pieces ----------

  predicate AllClosed(pieces: seq<string>, g: Grammar) {
    pieces != [] ==> Outside(pieces[0], g).Some? && AllClosed(pieces[1..], g)
  }

  function OutsideEach(pieces: seq<string>, g: Grammar): (r: seq<string>)
    requires AllClosed(pieces, g)
    ensures |r| == |pieces|
  {
    if pieces == [] then [] else [Outside(pieces[0], g).value] + OutsideEach(pieces[1..], g)
  }

  predicate AllCutOnlyQuoted(pieces: seq<string>, g: Grammar, amp: bool) {
    pieces != [] ==> FirstCutIsQuoted(pieces[0], g, amp) && AllCutOnlyQuoted(pieces[1..], g, amp)
  }

  /**
   * How the two readers agree on a text: the splitter's pieces are its pieces of each scanner piece in order; outside
   * quotes it cuts exactly where the scanner does; and what it cuts besides lies inside quotes.
   */
  ghost predicate Agree(s: string, g: Grammar, amp: bool) {
    && SplitAt(s, g != Cmd, amp) == SplitEach(Raw(s, g), g != Cmd, amp)
    && Outside(s, g).Some? && AllClosed(Raw(s, g), g)
    && SplitAt(Outside(s, g).value, g != Cmd, amp) == OutsideEach(Raw(s, g), g)
    && AllCutOnlyQuoted(Raw(s, g), g, amp)
  }

  /** The scanner takes separators and fronts, and a front never ends in an ampersand. */
  lemma TakenIs(s: string, g: Grammar, amp: bool, st: State)
    requires s != "" && Step(s, g, amp, st).Some?
    ensures var n := SeparatorLength(s, g);
      var f := Front(s, g);
      && Step(s, g, amp, st).value.taken == (if n > 0 then n else |f|)
      && (n == 2 ==> amp)
      && (n == 0 ==> s[0] != '&' && f[|f| - 1] != '&' && (f == [s[0]] || IsQuote(s[0])) && !(g != Cmd && s[0] == ';'))
  {
    hide ReadQuoted, Rejected, EndWord, NewSegment, EndsQuoted;
  }

  /** What the scanner takes from an accepted text, when it is no separator. */
  lemma TakenFront(s: string, g: Grammar, amp: bool, st: State)
    requires s != "" && Step(s, g, amp, st).Some? && SeparatorLength(s, g) == 0 && g != Neutral
    ensures var f := Front(s, g); var t := s[|f|..];
      IsFront(f, g) && f[|f| - 1] != '&' && (t != "" ==> t[0] != f[0] || !Opens(f[0], g))
  {
    hide Rejected, EndWord, NewSegment, ReadQuoted;
    TakenIs(s, g, amp, st);
    if Opens(s[0], g) {
      SpanIsSpanned(s[1..], s[0], g);
      QuotedFront(s, g);
      var f := Front(s, g);
      assert f[1..|f| - 1] == ReadQuoted(s[1..], s[0], g).value.span;
    }
  }

  /**
   * For every command the scanner accepts, in every state: the readers agree. The scanner's separators are exactly the
   * splitter's cuts outside quotes.
   */
  lemma {:induction false} SplitterAgrees(s: string, g: Grammar, amp: bool, st: State)
    requires Scan(s, g, amp, st).Some? && g != Neutral
    ensures Agree(s, g, amp)
    decreases |s|
  {
    hide Scan, Step, Raw, Front, Agree, SeparatorLength;
    RawUnfolds(s, g);
    ScanUnfolds(s, g, amp, st);
    if s == "" {
      AgreeOnNothing(g, amp);
    } else {
      var m := Step(s, g, amp, st).value;
      var t := s[m.taken..];
      TakenIs(s, g, amp, st);
      SplitterAgrees(t, g, amp, m.st);
      if SeparatorLength(s, g) > 0 {
        SeparatorIs(s, g);
        AgreeBehindSeparator(s, g, amp, m.taken);
      } else {
        TakenFront(s, g, amp, st);
        RawStarts(t, g);
        assert s == Front(s, g) + t;
        AgreeBehindFront(Front(s, g), t, g, amp);
      }
    }
  }

  /** Characters a shell acts on outside quotes: line ends, pipes, redirections, patterns, expansions. */
  predicate ShellReads(c: char, g: Grammar) {
    || c in "\n\r|<>(){}*?[]`"
    || (c in "%^!" && g == Cmd) || (c in "$@" && g == PowerShell) || (c in "$\\!" && g == Posix)
  }

  /** Whatever the scanner accepts holds none of them outside quotes, as the host's other reader finds the quotes. */
  lemma {:induction false} ScannedHoldsNoOperator(s: string, g: Grammar, amp: bool, st: State)
    requires Scan(s, g, amp, st).Some? && g != Neutral
    ensures Outside(s, g).Some? && forall c :: c in Outside(s, g).value ==> !ShellReads(c, g)
    decreases |s|
  {
    hide Scan, Step, Front, SeparatorLength, Outside, ShellReads;
    ScanUnfolds(s, g, amp, st);
    if s == "" {
      OutsideNothing(g);
    } else {
      var m := Step(s, g, amp, st).value;
      var t := s[m.taken..];
      TakenIs(s, g, amp, st);
      ScannedHoldsNoOperator(t, g, amp, m.st);
      if SeparatorLength(s, g) > 0 {
        SeparatorIs(s, g);
        SeparatorIsHarmless(s, g, amp, m.taken);
      } else {
        TakenFront(s, g, amp, st);
        assert s == Front(s, g) + t;
        FrontOutside(Front(s, g), t, g);
        FrontIsHarmless(s, g, amp, st);
      }
    }
  }

  lemma OutsideNothing(g: Grammar)
    ensures Outside("", g) == Some("")
  {
  }

  lemma SeparatorIsHarmless(s: string, g: Grammar, amp: bool, taken: nat)
    requires s != "" && g != Neutral
    requires if "&&" <= s then amp && taken == 2 else s[0] == ';' && g != Cmd && taken == 1
    requires Outside(s[taken..], g).Some?
    ensures Outside(s, g) == Some(s[..taken] + Outside(s[taken..], g).value)
    ensures forall c :: c in s[..taken] ==> !ShellReads(c, g)
  {
    hide Outside, SplitAt, ShellReads;
    SeparatorOutside(s, g, amp, taken);
    SeparatorsAreHarmless(g);
    assert s[..taken] == if "&&" <= s then "&&" else ";";
  }

  lemma SeparatorsAreHarmless(g: Grammar)
    ensures !ShellReads('&', g) && !ShellReads(';', g)
  {
  }

  lemma FrontIsHarmless(s: string, g: Grammar, amp: bool, st: State)
    requires s != "" && g != Neutral && SeparatorLength(s, g) == 0 && Step(s, g, amp, st).Some?
    requires IsFront(Front(s, g), g)
    ensures forall c :: c in FrontText(Front(s, g), g) ==> !ShellReads(c, g)
  {
    hide ReadQuoted, EndsQuoted;
  }

  lemma SeparatorIs(s: string, g: Grammar)
    requires s != "" && SeparatorLength(s, g) > 0
    ensures if "&&" <= s then SeparatorLength(s, g) == 2 else s[0] == ';' && g != Cmd && SeparatorLength(s, g) == 1
  {
  }

  /** The first piece begins the text. */
  lemma RawStarts(s: string, g: Grammar)
    ensures Raw(s, g)[0] <= s
    decreases |s|
  {
    hide SeparatorLength, Front;
    if s != "" && SeparatorLength(s, g) == 0 {
      var f := Front(s, g);
      RawStarts(s[|f|..], g);
      assert s == f + s[|f|..];
    }
  }

  lemma AgreeOnNothing(g: Grammar, amp: bool)
    requires g != Neutral
    ensures Agree("", g, amp)
  {
    assert [""][1..] == [];
  }

  lemma EachBehindNothing(pieces: seq<string>, g: Grammar, amp: bool)
    ensures SplitEach([""] + pieces, g != Cmd, amp) == [""] + SplitEach(pieces, g != Cmd, amp)
    ensures AllClosed([""] + pieces, g) == AllClosed(pieces, g)
    ensures AllClosed(pieces, g) ==> OutsideEach([""] + pieces, g) == [""] + OutsideEach(pieces, g)
    ensures AllCutOnlyQuoted([""] + pieces, g, amp) == AllCutOnlyQuoted(pieces, g, amp)
  {
    assert ([""] + pieces)[1..] == pieces;
  }

  lemma SeparatorOutside(s: string, g: Grammar, amp: bool, taken: nat)
    requires s != "" && g != Neutral
    requires if "&&" <= s then amp && taken == 2 else s[0] == ';' && g != Cmd && taken == 1
    ensures SplitAt(s, g != Cmd, amp) == [""] + SplitAt(s[taken..], g != Cmd, amp)
    ensures Outside(s, g) == Prefixed(s[..taken], Outside(s[taken..], g))
    ensures Outside(s[taken..], g).Some? ==>
              SplitAt(s[..taken] + Outside(s[taken..], g).value, g != Cmd, amp)
                  == [""] + SplitAt(Outside(s[taken..], g).value, g != Cmd, amp)
  {
    var t := s[taken..];
    if taken == 2 {
      assert s[1..][1..] == t && s[0] == '&' && s[1] == '&';
      assert Outside(s[1..], g) == Prefixed("&", Outside(t, g)) && "&" + ['&'] == "&&" == s[..2];
      PrefixedStep("&", '&', Outside(t, g));
      if Outside(t, g).Some? {
        var o := Outside(t, g).value;
        assert s[..2] == "&&" && ("&&" + o)[2..] == o;
      }
    } else {
      assert s[..1] == ";";
      if Outside(t, g).Some? { assert (";" + Outside(t, g).value)[1..] == Outside(t, g).value; }
    }
  }

  lemma AgreeBehindSeparator(s: string, g: Grammar, amp: bool, taken: nat)
    requires s != "" && g != Neutral
    requires if "&&" <= s then amp && taken == 2 else s[0] == ';' && g != Cmd && taken == 1
    requires Agree(s[taken..], g, amp) && Raw(s, g) == [""] + Raw(s[taken..], g)
    ensures Agree(s, g, amp)
  {
    hide Raw, SplitAt, SplitEach, Outside, OutsideEach, AllClosed, AllCutOnlyQuoted;
    SeparatorOutside(s, g, amp, taken);
    EachBehindNothing(Raw(s[taken..], g), g, amp);
  }

  lemma EachBehindFront(f: string, pieces: seq<string>, g: Grammar, amp: bool)
    requires IsFront(f, g) && g != Neutral && f[|f| - 1] != '&' && |pieces| >= 1
    requires pieces[0] != "" ==> pieces[0][0] != f[0] || !Opens(f[0], g)
    requires AllClosed(pieces, g) && AllCutOnlyQuoted(pieces, g, amp)
    ensures AllClosed(Prepend(f, pieces), g) && AllCutOnlyQuoted(Prepend(f, pieces), g, amp)
    ensures OutsideEach(Prepend(f, pieces), g) == Prepend(FrontText(f, g), OutsideEach(pieces, g))
  {
    hide IsFront, Outside, FirstCutIsQuoted, FrontText;
    FrontOutside(f, pieces[0], g);
    FrontThenCut(f, pieces[0], g, amp);
    assert Prepend(f, pieces)[1..] == pieces[1..];
    assert OutsideEach(pieces, g)[1..] == OutsideEach(pieces[1..], g);
  }

  lemma AgreeBehindFront(f: string, t: string, g: Grammar, amp: bool)
    requires IsFront(f, g) && g != Neutral && f != "" && f[|f| - 1] != '&'
        && (t != "" ==> t[0] != f[0] || !Opens(f[0], g))
    requires Raw(t, g)[0] <= t && Agree(t, g, amp) && Raw(f + t, g) == Prepend(f, Raw(t, g))
    ensures Agree(f + t, g, amp)
  {
    hide IsFront, Raw, SplitAt, SplitEach, Outside, OutsideEach, AllClosed, AllCutOnlyQuoted, FrontText, Opens;
    SplitGlues(f, t, g != Cmd, amp);
    SplitEachPrepend(f, Raw(t, g), g != Cmd, amp);
    FrontOutside(f, t, g);
    FrontUncut(f, Outside(t, g).value, g, amp);
    EachBehindFront(f, Raw(t, g), g, amp);
  }

  // ---------- the scanner on its own pieces ----------

  /** Each piece, scanned alone, is exactly its segment. */
  ghost predicate PiecesAre(pieces: seq<string>, segs: seq<Segment>, g: Grammar, amp: bool) {
    && |pieces| == |segs|
    && (pieces != [] ==> Scan(pieces[0], g, amp, START) == Some([segs[0]]) && PiecesAre(pieces[1..], segs[1..], g, amp))
  }

  function Alone(st: State): State { st.(done := []) }

  /** What the scan of a text from a state gives, piece by piece: the current segment first. */
  ghost predicate Continues(s: string, g: Grammar, amp: bool, st: State, more: seq<Segment>) {
    && |more| >= 1
    && Scan(Raw(s, g)[0], g, amp, Alone(st)) == Some([more[0]])
    && PiecesAre(Raw(s, g)[1..], more[1..], g, amp)
  }

  lemma {:induction false} SegmentsOfRaw(s: string, g: Grammar, amp: bool, st: State) returns (more: seq<Segment>)
    requires Scan(s, g, amp, st).Some?
    ensures Scan(s, g, amp, st).value == st.done + more
    ensures Continues(s, g, amp, st, more)
    decreases |s|
  {
    hide ReadQuoted, Rejected, EndsQuoted, PiecesAre, Scan, Step;
    ScanUnfolds(s, g, amp, st);
    if s == "" {
      more := FinishAlone(g, amp, st);
    } else {
      var m := Step(s, g, amp, st).value;
      var rest := SegmentsOfRaw(s[m.taken..], g, amp, m.st);
      more := StepAlone(s, g, amp, st, rest);
    }
  }

  lemma FinishAlone(g: Grammar, amp: bool, st: State) returns (more: seq<Segment>)
    requires Finish(st).Some?
    ensures Finish(st).value == st.done + more && Continues("", g, amp, st, more)
  {
    more := [EndWord(st).value.words];
    ScanEnd(g, amp, Alone(st));
    assert [] + more == more && Raw("", g)[1..] == [] && more[1..] == [];
  }

  lemma StepAlone(s: string, g: Grammar, amp: bool, st: State, rest: seq<Segment>) returns (more: seq<Segment>)
    requires s != "" && Step(s, g, amp, st).Some?
    requires Continues(s[Step(s, g, amp, st).value.taken..], g, amp, Step(s, g, amp, st).value.st, rest)
    ensures Continues(s, g, amp, st, more)
    ensures Step(s, g, amp, st).value.st.done + rest == st.done + more
  {
    hide Step, Front, SeparatorLength, Scan, PiecesAre;
    TakenIs(s, g, amp, st);
    if SeparatorLength(s, g) > 0 {
      more := SeparatorAlone(s, g, amp, st, rest);
    } else {
      more := rest;
      FrontAlone(s, g, amp, st);
    }
  }

  lemma SeparatorAlone(s: string, g: Grammar, amp: bool, st: State, rest: seq<Segment>) returns (more: seq<Segment>)
    requires s != "" && SeparatorLength(s, g) > 0 && Step(s, g, amp, st).Some?
    requires Continues(s[Step(s, g, amp, st).value.taken..], g, amp, Step(s, g, amp, st).value.st, rest)
    ensures Continues(s, g, amp, st, more)
    ensures Step(s, g, amp, st).value.st.done + rest == st.done + more
  {
    hide ReadQuoted, Rejected, Scan, PiecesAre;
    var m := Step(s, g, amp, st).value;
    var t := s[m.taken..];
    var ws := EndWord(st).value.words;
    more := [ws] + rest;
    assert m.st == State(st.done + [ws], [], "", false);
    assert Raw(s, g) == [""] + Raw(t, g);
    assert Raw(s, g)[1..] == Raw(t, g) && more[1..] == rest;
    ScanEnd(g, amp, Alone(st));
    assert [] + [ws] == [ws];
    assert Alone(m.st) == START;
    PiecesCons(Raw(t, g), rest, g, amp);
    assert st.done + [ws] + rest == st.done + ([ws] + rest);
  }

  lemma PiecesCons(pieces: seq<string>, segs: seq<Segment>, g: Grammar, amp: bool)
    requires pieces != [] && segs != []
    requires Scan(pieces[0], g, amp, START) == Some([segs[0]]) && PiecesAre(pieces[1..], segs[1..], g, amp)
    ensures PiecesAre(pieces, segs, g, amp)
  {
    hide Scan;
  }

  lemma {:induction false} ReadQuotedAgain(s: string, q: char, g: Grammar, t: string)
    requires ReadQuoted(s, q, g).Some?
    ensures var span := ReadQuoted(s, q, g).value.span;
      ReadQuoted(span + [q] + t, q, g) == Some(Quoted(span, t))
  {
    hide ReadQuoted, RejectedInside;
    ReadQuotedAt(s, 0, q, g);
    assert s[0..] == s;
    if s[0] == q {
      ReadQuotedCons(q, t, q, g);
      assert "" + [q] + t == [q] + t;
    } else {
      ReadQuotedAgain(s[1..], q, g, t);
      var more := ReadQuoted(s[1..], q, g).value.span;
      ReadQuotedCons(s[0], more + [q] + t, q, g);
      assert [s[0]] + more + [q] + t == [s[0]] + (more + [q] + t);
    }
  }

  lemma ReadQuotedCons(c: char, t: string, q: char, g: Grammar)
    ensures ReadQuoted([c] + t, q, g) ==
      if c == q then Some(Quoted("", t))
      else if RejectedInside(c, q, g) then None
      else SpanBefore([c], ReadQuoted(t, q, g))
  {
    hide RejectedInside;
    assert ([c] + t)[1..] == t;
  }

  /** What is taken from the front of a text is taken from the front of its own piece in the same way. */
  lemma FrontAlone(s: string, g: Grammar, amp: bool, st: State)
    requires s != "" && SeparatorLength(s, g) == 0 && Step(s, g, amp, st).Some?
    ensures var m := Step(s, g, amp, st).value;
      && m.st.done == st.done
      && Raw(s, g)[1..] == Raw(s[m.taken..], g)[1..]
      && Scan(Raw(s, g)[0], g, amp, Alone(st)) == Scan(Raw(s[m.taken..], g)[0], g, amp, Alone(m.st))
  {
    hide Rejected, Scan, ReadQuoted;
    TakenIs(s, g, amp, st);
    var m := Step(s, g, amp, st).value;
    var f := Front(s, g);
    var piece := Raw(s[m.taken..], g)[0];
    assert Raw(s, g) == Prepend(f, Raw(s[m.taken..], g));
    if Opens(s[0], g) {
      QuotedFront(s, g);
      RawKeepsEnd(s[m.taken..], g);
      PieceTakesSpan(s[0], ReadQuoted(s[1..], s[0], g).value.span, s[1..], piece, g, amp, Alone(st));
    } else {
      PieceTakesChar(s, piece, g, amp, st);
    }
  }

  lemma PieceTakesChar(s: string, piece: string, g: Grammar, amp: bool, st: State)
    requires s != "" && SeparatorLength(s, g) == 0 && !Opens(s[0], g) && Step(s, g, amp, st).Some?
    ensures Scan([s[0]] + piece, g, amp, Alone(st)) == Scan(piece, g, amp, Alone(Step(s, g, amp, st).value.st))
  {
    hide Rejected, Scan;
    assert ([s[0]] + piece)[1..] == piece;
    ScanUnfolds([s[0]] + piece, g, amp, Alone(st));
  }

  lemma RawKeepsEnd(t: string, g: Grammar)
    requires EndsQuoted(t)
    ensures EndsQuoted(Raw(t, g)[0])
  {
  }

  lemma PieceTakesSpan(c: char, span: string, s: string, piece: string, g: Grammar, amp: bool, st: State)
    requires Opens(c, g) && ReadQuoted(s, c, g).Some? && span == ReadQuoted(s, c, g).value.span
    requires EndsQuoted(piece) && !st.inWord
    ensures Scan([c] + span + [c] + piece, g, amp, st) == Scan(piece, g, amp, st.(word := span, inWord := true))
  {
    hide ReadQuoted, Scan, EndsQuoted, Opens;
    ReadQuotedAgain(s, c, g, piece);
    ScanSpan(c, span, piece, g, amp, st);
  }

  /**
   * For every accepted command: the text between the scanner's separators, piece by piece, holds exactly the segments
   * the scanner reports.
   */
  lemma SegmentsAreTheirText(command: string, g: Grammar, amp: bool)
    requires BoundedScan(command, g, amp).Some?
    ensures PiecesAre(Raw(command, g), BoundedScan(command, g, amp).value, g, amp)
  {
    hide Scan, PiecesAre, Raw;
    var more := SegmentsOfRaw(command, g, amp, START);
    assert [] + more == more;
    PiecesCons(Raw(command, g), more, g, amp);
  }
}
