/** What every accepted scan guarantees: its bounds, that it can be printed again, and the raw text of its segments. */
module ScannedCommand {
  import opened Basics
  import opened CommandText
  import opened CommandShell
  import opened CommandScanner
  import opened PrintedCommand

  // ---------- words of an accepted scan ----------

  predicate PrintableWord(w: string, g: Grammar) {
    BareWord(w, g) || QuotedWord(w, '"', g) || QuotedWord(w, '\'', g)
  }

  predicate GoodSegment(ws: Segment, g: Grammar) {
    |ws| <= MAX_WORDS && forall k :: 0 <= k < |ws| ==> PrintableWord(ws[k], g)
  }

  predicate GoodSegments(segs: seq<Segment>, g: Grammar) {
    segs != [] ==> segs[0] != [] && GoodSegment(segs[0], g) && GoodSegments(segs[1..], g)
  }

  /** What the scanner keeps of its state: only finished non-empty segments, and only words that can be printed. */
  ghost predicate GoodState(st: State, g: Grammar) {
    && |st.done| < MAX_SEGMENTS && GoodSegments(st.done, g)
    && GoodSegment(st.words, g)
    && (if st.inWord then PrintableWord(st.word, g) else st.word == "")
  }

  lemma {:induction false} GoodSegmentsSnoc(segs: seq<Segment>, ws: Segment, g: Grammar)
    requires GoodSegments(segs, g) && ws != [] && GoodSegment(ws, g)
    ensures GoodSegments(segs + [ws], g)
  {
    hide GoodSegment;
    if segs != [] {
      assert (segs + [ws])[1..] == segs[1..] + [ws];
      GoodSegmentsSnoc(segs[1..], ws, g);
    } else {
      assert (segs + [ws])[1..] == [];
    }
  }

  lemma EndWordIsGood(st: State, g: Grammar)
    requires GoodState(st, g) && EndWord(st).Some?
    ensures GoodState(EndWord(st).value, g)
  {
    hide PrintableWord, GoodSegments;
  }

  lemma NewSegmentIsGood(st: State, g: Grammar)
    requires GoodState(st, g) && NewSegment(st).Some?
    ensures GoodState(NewSegment(st).value, g)
  {
    hide PrintableWord;
    EndWordIsGood(st, g);
    var t := EndWord(st).value;
    GoodSegmentsSnoc(t.done, t.words, g);
  }

  /** A bare character keeps a word printable, even behind a quoted span. */
  lemma BareCharKeeps(w: string, c: char, g: Grammar)
    requires (w == "" || PrintableWord(w, g)) && BareChar(c, g) && g != Neutral
    ensures PrintableWord(w + [c], g)
  {
    if w == "" || BareWord(w, g) {
      assert BareWord(w + [c], g);
    } else if QuotedWord(w, '"', g) {
      assert QuotedWord(w + [c], '"', g);
    } else {
      assert QuotedWord(w + [c], '\'', g);
    }
  }

  lemma {:induction false} SpanIsQuotedWord(s: string, q: char, g: Grammar)
    requires Opens(q, g) && ReadQuoted(s, q, g).Some?
    ensures QuotedWord(ReadQuoted(s, q, g).value.span, q, g)
  {
    if s[0] != q {
      SpanIsQuotedWord(s[1..], q, g);
    }
  }

  lemma StepIsGood(s: string, g: Grammar, amp: bool, st: State)
    requires s != "" && g != Neutral && GoodState(st, g) && Step(s, g, amp, st).Some?
    ensures GoodState(Step(s, g, amp, st).value.st, g)
  {
    hide GoodSegments, GoodSegment, PrintableWord, ReadQuoted, Rejected;
    var c := s[0];
    if c == ' ' || c == '\t' {
      EndWordIsGood(st, g);
    } else if c == '&' || c == ';' {
      NewSegmentIsGood(st, g);
    } else if Opens(c, g) {
      SpanIsQuotedWord(s[1..], c, g);
      QuotedIsPrintable(ReadQuoted(s[1..], c, g).value.span, c, g);
    } else {
      BareCharKeeps(st.word, c, g);
    }
  }

  lemma QuotedIsPrintable(w: string, q: char, g: Grammar)
    requires QuotedWord(w, q, g)
    ensures PrintableWord(w, g)
  {
  }

  lemma {:induction false} ScanIsGood(s: string, g: Grammar, amp: bool, st: State)
    requires g != Neutral && GoodState(st, g) && Scan(s, g, amp, st).Some?
    ensures var r := Scan(s, g, amp, st).value;
      1 <= |r| <= MAX_SEGMENTS && GoodSegments(r, g)
  {
    hide Step, GoodSegments, GoodSegment, PrintableWord;
    if s == "" {
      EndWordIsGood(st, g);
      var t := EndWord(st).value;
      GoodSegmentsSnoc(t.done, t.words, g);
    } else {
      var m := Step(s, g, amp, st).value;
      StepIsGood(s, g, amp, st);
      ScanIsGood(s[m.taken..], g, amp, m.st);
    }
  }

  /** Every accepted scan has 1 to 32 segments, each with 1 to 256 words that can all be printed again. */
  lemma ScanBounds(command: string, g: Grammar, amp: bool)
    requires g != Neutral && BoundedScan(command, g, amp).Some?
    ensures var segs := BoundedScan(command, g, amp).value;
      1 <= |segs| <= MAX_SEGMENTS && GoodSegments(segs, g)
  {
    hide Scan;
    ScanIsGood(command, g, amp, START);
  }

  // ---------- the canonical print of a scan result ----------

  function TokenOf(w: string, g: Grammar): Token {
    Token(w, if BareWord(w, g) then Bare else if QuotedWord(w, '"', g) then Whole('"') else Whole('\''))
  }

  function TokensOf(ws: Segment, g: Grammar): seq<Token> {
    if ws == [] then [] else [TokenOf(ws[0], g)] + TokensOf(ws[1..], g)
  }

  function SeparatorOf(amp: bool): Separator { if amp then DoubleAmp else Semicolon }

  function LinksOf(segs: seq<Segment>, g: Grammar, amp: bool): seq<Link> {
    if segs == [] then [] else [Link(SeparatorOf(amp), TokensOf(segs[0], g))] + LinksOf(segs[1..], g, amp)
  }

  lemma {:induction false} TokensOfAreGood(ws: Segment, g: Grammar)
    requires GoodSegment(ws, g)
    ensures AllPrintable(TokensOf(ws, g), g) && Words(TokensOf(ws, g)) == ws
    ensures |TokensOf(ws, g)| == |ws|
  {
    hide BareWord, QuotedWord;
    if ws != [] {
      assert PrintableWord(ws[0], g);
      forall k | 0 <= k < |ws[1..]| ensures PrintableWord(ws[1..][k], g) { assert ws[1..][k] == ws[k + 1]; }
      TokensOfAreGood(ws[1..], g);
      var ts := TokensOf(ws, g);
      assert ts[1..] == TokensOf(ws[1..], g);
      WordsCons(ts);
    }
  }

  lemma {:induction false} LinksOfAreGood(segs: seq<Segment>, g: Grammar, amp: bool)
    requires GoodSegments(segs, g) && (amp || g != Cmd)
    ensures PrintableLinks(LinksOf(segs, g, amp), g, amp) && Segments(LinksOf(segs, g, amp)) == segs
    ensures |LinksOf(segs, g, amp)| == |segs|
  {
    hide GoodSegment, AllPrintable, TokensOf;
    if segs != [] {
      TokensOfAreGood(segs[0], g);
      SegmentFits(segs[0], g);
      LinksOfAreGood(segs[1..], g, amp);
      var links := LinksOf(segs, g, amp);
      assert links[1..] == LinksOf(segs[1..], g, amp);
    }
  }

  lemma SegmentFits(ws: Segment, g: Grammar)
    requires GoodSegment(ws, g)
    ensures |ws| <= MAX_WORDS
  {
  }

  ghost predicate PrintableScan(segs: seq<Segment>, g: Grammar, amp: bool) {
    && 1 <= |segs| <= MAX_SEGMENTS && (amp || g != Cmd)
    && PrintableTokens(TokensOf(segs[0], g), g) && PrintableLinks(LinksOf(segs[1..], g, amp), g, amp)
  }

  function PrintScan(segs: seq<Segment>, g: Grammar, amp: bool): string
    requires PrintableScan(segs, g, amp)
  {
    PrintCommand(TokensOf(segs[0], g), LinksOf(segs[1..], g, amp), g, amp)
  }

  /**
   * For every command and grammar: whatever the scanner accepts can be printed, and scanning that print gives the same
   * segments again, when the print fits the length budget. `amp` is what the shell admits; cmd always admits it.
   */
  lemma PrintedScanIsFixedPoint(command: string, g: Grammar, amp: bool)
    requires g != Neutral && (amp || g != Cmd) && BoundedScan(command, g, amp).Some?
    ensures var segs := BoundedScan(command, g, amp).value;
      PrintableScan(segs, g, amp)
      && (|PrintScan(segs, g, amp)| <= MAX_LENGTH ==> BoundedScan(PrintScan(segs, g, amp), g, amp) == Some(segs))
  {
    hide BoundedScan, GoodSegment, AllPrintable, TokensOf, LinksOf, PrintableLinks, PrintCommand;
    ScanBounds(command, g, amp);
    var segs := BoundedScan(command, g, amp).value;
    TokensOfAreGood(segs[0], g);
    SegmentFits(segs[0], g);
    LinksOfAreGood(segs[1..], g, amp);
    if |PrintScan(segs, g, amp)| <= MAX_LENGTH {
      ScanUndoesPrint(TokensOf(segs[0], g), LinksOf(segs[1..], g, amp), g, amp);
      assert [segs[0]] + segs[1..] == segs;
    }
  }
}
