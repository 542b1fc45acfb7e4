/** Commands printed from words and separators, and what the scanner reads back. */
module PrintedCommand {
  import opened Basics
  import opened CommandText
  import opened CommandShell
  import opened CommandScanner

  /** A character the scanner takes as it is into a word. */
  predicate BareChar(c: char, g: Grammar) {
    c !in " \t\n\r&|;" && !Opens(c, g) && !Rejected(c, g)
  }

  predicate BareWord(w: string, g: Grammar) {
    w != "" && forall k :: 0 <= k < |w| ==> BareChar(w[k], g)
  }

  /** Quotes are the double one, and outside cmd the single one, which there is a character like any other. */
  lemma QuotesAre(g: Grammar)
    requires g != Neutral
    ensures Opens('"', g) && !BareChar('"', g) && (Opens('\'', g) <==> g != Cmd) && (BareChar('\'', g) <==> g == Cmd)
  {
  }

  /** Behind a closing quote a word is over at the end, at a blank and at any separator, and at nothing ordinary. */
  lemma QuotedWordEnds(t: string, c: char)
    ensures EndsQuoted("") && EndsQuoted(" " + t) && EndsQuoted("\t" + t) && EndsQuoted("&&" + t) && EndsQuoted(";" + t)
    ensures c in "\"'-_./:=,+~#" || 'a' <= c <= 'z' || 'A' <= c <= 'Z' || '0' <= c <= '9' ==> !EndsQuoted([c] + t)
  {
    assert (" " + t)[0] == ' ' && ("\t" + t)[0] == '\t' && ("&&" + t)[0] == '&' && (";" + t)[0] == ';';
  }

  /** In an unidentified shell no character is read without quotes. */
  lemma NeutralReadsNothing(c: char)
    ensures !BareChar(c, Neutral)
  {
  }

  /** Letters, digits and the usual marks of names, paths, options and settings need no quotes in any shell. */
  lemma OrdinaryCharsAreBare(c: char, g: Grammar)
    requires 'a' <= c <= 'z' || 'A' <= c <= 'Z' || '0' <= c <= '9' || c in "-_./:=,+~#"
    requires g != Neutral
    ensures BareChar(c, g)
  {
    hide Rejected;
    OrdinaryIsNotRejected(c, g);
  }

  lemma OrdinaryIsNotRejected(c: char, g: Grammar)
    requires 'a' <= c <= 'z' || 'A' <= c <= 'Z' || '0' <= c <= '9' || c in "-_./:=,+~#"
    requires g != Neutral
    ensures !Rejected(c, g)
  {
    match g {
      case Cmd => assert c !in "%^!<>(){}*?[]`";
      case PowerShell => assert c !in "$`@<>(){}*?[]";
      case Posix => assert c !in "$\\`!<>(){}*?[]";
    }
  }

  /** Between single quotes anything stands for itself but that quote and a line end, in any shell that has them. */
  lemma SingleQuotesKeepAll(w: string, g: Grammar)
    requires g != Cmd && '\'' !in w && '\n' !in w && '\r' !in w
    ensures QuotedWord(w, '\'', g)
  {
  }

  /** Between double quotes, anything but that quote, a line end, and what the shell expands or takes for an escape. */
  lemma DoubleQuotesKeepMost(w: string, g: Grammar)
    requires '"' !in w && '\n' !in w && '\r' !in w
    requires g == Cmd ==> '^' !in w && '%' !in w
    requires g != Cmd ==> '$' !in w
    requires g == Posix ==> '\\' !in w
    requires g == PowerShell ==> '`' !in w
    ensures QuotedWord(w, '"', g)
  {
  }

  predicate QuotedWord(w: string, q: char, g: Grammar) {
    Opens(q, g) && forall k :: 0 <= k < |w| ==> w[k] != q && !RejectedInside(w[k], q, g)
  }

  datatype Style = Bare | Whole(quote: char)
  datatype Token = Token(word: string, style: Style)
  datatype Separator = DoubleAmp | Semicolon
  /** A segment and the separator in front of it. */
  datatype Link = Link(separator: Separator, tokens: seq<Token>)

  predicate PrintableToken(t: Token, g: Grammar) {
    match t.style
    case Bare => BareWord(t.word, g)
    case Whole(q) => QuotedWord(t.word, q, g)
  }

  predicate AllPrintable(ts: seq<Token>, g: Grammar) {
    ts != [] ==> PrintableToken(ts[0], g) && AllPrintable(ts[1..], g)
  }

  predicate PrintableTokens(ts: seq<Token>, g: Grammar) { 1 <= |ts| <= MAX_WORDS && AllPrintable(ts, g) }

  predicate Admits(sep: Separator, g: Grammar, amp: bool) { if sep == DoubleAmp then amp else g != Cmd }

  function PrintToken(t: Token): string {
    match t.style
    case Bare => t.word
    case Whole(q) => [q] + t.word + [q]
  }

  /** The printed tokens, each behind one space. */
  function PrintMore(ts: seq<Token>): string {
    if ts == [] then "" else " " + PrintToken(ts[0]) + PrintMore(ts[1..])
  }

  function PrintTokens(ts: seq<Token>): string
    requires ts != []
  {
    PrintToken(ts[0]) + PrintMore(ts[1..])
  }

  function SeparatorText(sep: Separator): string { if sep == DoubleAmp then "&&" else ";" }

  predicate PrintableLinks(links: seq<Link>, g: Grammar, amp: bool) {
    links != [] ==>
      Admits(links[0].separator, g, amp) && PrintableTokens(links[0].tokens, g) && PrintableLinks(links[1..], g, amp)
  }

  function PrintLinks(links: seq<Link>, g: Grammar, amp: bool): string
    requires PrintableLinks(links, g, amp)
  {
    if links == [] then ""
    else " " + SeparatorText(links[0].separator) + " " + PrintTokens(links[0].tokens) + PrintLinks(links[1..], g, amp)
  }

  function Words(ts: seq<Token>): (r: Segment)
    ensures |r| == |ts|
  {
    if ts == [] then [] else [ts[0].word] + Words(ts[1..])
  }

  function Segments(links: seq<Link>): seq<Segment> {
    if links == [] then [] else [Words(links[0].tokens)] + Segments(links[1..])
  }

  // ---------- the scanner on printed text ----------

  function ScanOn(s: string, g: Grammar, amp: bool, next: Option<State>): Option<seq<Segment>> {
    if next == None then None else Scan(s, g, amp, next.value)
  }

  lemma ScanBlank(t: string, g: Grammar, amp: bool, st: State)
    ensures Scan(" " + t, g, amp, st) == ScanOn(t, g, amp, EndWord(st))
  {
    assert (" " + t)[1..] == t;
  }

  lemma ScanChar(c: char, t: string, g: Grammar, amp: bool, st: State)
    requires BareChar(c, g)
    ensures Scan([c] + t, g, amp, st) == Scan(t, g, amp, st.(word := st.word + [c], inWord := true))
  {
    assert ([c] + t)[1..] == t;
  }

  lemma ScanSeparator(sep: Separator, t: string, g: Grammar, amp: bool, st: State)
    requires Admits(sep, g, amp)
    ensures Scan(SeparatorText(sep) + t, g, amp, st) == ScanOn(t, g, amp, NewSegment(st))
  {
    var s := SeparatorText(sep) + t;
    assert s[|SeparatorText(sep)|..] == t;
  }

  lemma {:induction false} ReadQuotedSpan(w: string, q: char, t: string, g: Grammar)
    requires QuotedWord(w, q, g)
    ensures ReadQuoted(w + [q] + t, q, g) == Some(Quoted(w, t))
  {
    var s := w + [q] + t;
    if w == "" {
      assert s[1..] == t;
    } else {
      assert s[0] == w[0] && s[1..] == w[1..] + [q] + t;
      ReadQuotedSpan(w[1..], q, t, g);
      assert [w[0]] + w[1..] == w;
    }
  }

  lemma ScanQuoted(w: string, q: char, t: string, g: Grammar, amp: bool, st: State)
    requires QuotedWord(w, q, g) && EndsQuoted(t) && !st.inWord
    ensures Scan([q] + w + [q] + t, g, amp, st) == Scan(t, g, amp, st.(word := w, inWord := true))
  {
    hide ReadQuoted, Scan, EndsQuoted;
    ReadQuotedSpan(w, q, t, g);
    ScanSpan(q, w, t, g, amp, st);
  }

  lemma {:induction false} ScanBare(w: string, t: string, g: Grammar, amp: bool, st: State)
    requires BareWord(w, g)
    ensures Scan(w + t, g, amp, st) == Scan(t, g, amp, st.(word := st.word + w, inWord := true))
  {
    assert w + t == [w[0]] + (w[1..] + t);
    ScanChar(w[0], w[1..] + t, g, amp, st);
    if |w| > 1 {
      ScanBare(w[1..], t, g, amp, st.(word := st.word + [w[0]], inWord := true));
      assert st.word + [w[0]] + w[1..] == st.word + w;
    } else {
      assert w[1..] + t == t && [w[0]] == w;
    }
  }

  /** A state between words: the scanner has nothing of a word yet. */
  predicate Between(st: State) { !st.inWord && st.word == "" }

  lemma ScanToken(t: Token, tail: string, g: Grammar, amp: bool, st: State)
    requires PrintableToken(t, g) && EndsQuoted(tail) && Between(st)
    ensures Scan(PrintToken(t) + tail, g, amp, st) == Scan(tail, g, amp, st.(word := t.word, inWord := true))
  {
    match t.style
    case Bare =>
      ScanBare(t.word, tail, g, amp, st);
      assert "" + t.word == t.word;
    case Whole(q) => ScanQuoted(t.word, q, tail, g, amp, st);
  }

  /** The state in which these words of the current segment are read, the last one not yet ended. */
  function Reading(done: seq<Segment>, ws: Segment): State
    requires ws != []
  {
    State(done, ws[..|ws| - 1], ws[|ws| - 1], true)
  }

  lemma EndReading(done: seq<Segment>, ws: Segment, w: string)
    ensures ws != [] && |ws| <= MAX_WORDS ==> EndWord(Reading(done, ws)) == Some(State(done, ws, "", false))
    ensures ws != [] && |ws| <= MAX_WORDS && |done| + 1 < MAX_SEGMENTS ==>
      NewSegment(Reading(done, ws)) == Some(State(done + [ws], [], "", false))
    ensures ws != [] && |ws| <= MAX_WORDS ==> Finish(Reading(done, ws)) == Some(done + [ws])
    ensures Reading(done, ws + [w]) == State(done, ws, w, true)
  {
    assert ws != [] ==> ws[..|ws| - 1] + [ws[|ws| - 1]] == ws;
  }

  /** One more printed word: the one before it ends, and it is read. */
  lemma ScanNextToken(t: Token, rest: string, g: Grammar, amp: bool, done: seq<Segment>, ws: Segment)
    requires PrintableToken(t, g) && EndsQuoted(rest) && 1 <= |ws| < MAX_WORDS
    ensures Scan(" " + (PrintToken(t) + rest), g, amp, Reading(done, ws))
        == Scan(rest, g, amp, Reading(done, ws + [t.word]))
  {
    hide Scan, PrintToken, PrintableToken, EndsQuoted, Reading, EndWord;
    ScanBlank(PrintToken(t) + rest, g, amp, Reading(done, ws));
    EndReading(done, ws, t.word);
    ScanToken(t, rest, g, amp, State(done, ws, "", false));
  }

  lemma {:induction false} ScanMore(ts: seq<Token>, tail: string, g: Grammar, amp: bool, done: seq<Segment>,
      ws: Segment)
    requires AllPrintable(ts, g)
    requires EndsQuoted(tail) && ws != [] && |ws| + |ts| <= MAX_WORDS
    ensures Scan(PrintMore(ts) + tail, g, amp, Reading(done, ws)) == Scan(tail, g, amp, Reading(done, ws + Words(ts)))
    decreases |ts|
  {
    hide Scan, PrintToken, PrintableToken, EndsQuoted, Reading, EndWord, PrintMore, Words;
    MoreIs(ts, tail);
    if ts == [] {
      NoWords(ws);
    } else {
      var rest := PrintMore(ts[1..]) + tail;
      MoreEndsQuoted(ts[1..], tail);
      ScanNextToken(ts[0], rest, g, amp, done, ws);
      ScanMore(ts[1..], tail, g, amp, done, ws + [ts[0].word]);
      WordsCons(ts);
      assert ws + [ts[0].word] + Words(ts[1..]) == ws + ([ts[0].word] + Words(ts[1..]));
    }
  }

  lemma NoWords(ws: Segment)
    ensures ws + Words([]) == ws
  {
  }

  lemma MoreIs(ts: seq<Token>, tail: string)
    ensures PrintMore(ts) + tail == if ts == [] then tail else " " + (PrintToken(ts[0]) + (PrintMore(ts[1..]) + tail))
  {
    hide PrintToken, PrintMore;
    MoreSteps(ts);
    if ts == [] { assert "" + tail == tail; } else { FourParts(" ", PrintToken(ts[0]), PrintMore(ts[1..]), tail); }
  }

  lemma MoreSteps(ts: seq<Token>)
    ensures PrintMore(ts) == if ts == [] then "" else " " + PrintToken(ts[0]) + PrintMore(ts[1..])
  {
    hide PrintToken;
  }

  lemma FourParts(a: string, b: string, c: string, d: string)
    ensures a + b + c + d == a + (b + (c + d))
  {
  }

  lemma MoreEndsQuoted(ts: seq<Token>, tail: string)
    requires EndsQuoted(tail)
    ensures EndsQuoted(PrintMore(ts) + tail)
  {
    if ts == [] {
      assert PrintMore(ts) + tail == tail;
    }
  }

  lemma ScanSegment(ts: seq<Token>, tail: string, g: Grammar, amp: bool, done: seq<Segment>)
    requires PrintableTokens(ts, g) && EndsQuoted(tail)
    ensures Scan(PrintTokens(ts) + tail, g, amp, State(done, [], "", false))
        == Scan(tail, g, amp, Reading(done, Words(ts)))
  {
    hide Scan, PrintToken, PrintableToken, EndsQuoted, Reading, Words;
    var rest := PrintMore(ts[1..]) + tail;
    assert PrintTokens(ts) + tail == PrintToken(ts[0]) + rest;
    MoreEndsQuoted(ts[1..], tail);
    ScanToken(ts[0], rest, g, amp, State(done, [], "", false));
    EndReading(done, [], ts[0].word);
    assert [] + [ts[0].word] == [ts[0].word];
    ScanMore(ts[1..], tail, g, amp, done, [ts[0].word]);
    WordsCons(ts);
  }

  lemma WordsCons(ts: seq<Token>)
    requires ts != []
    ensures Words(ts) == [ts[0].word] + Words(ts[1..])
  {
  }

  lemma {:induction false} ScanLinks(links: seq<Link>, g: Grammar, amp: bool, done: seq<Segment>, ws: Segment)
    requires PrintableLinks(links, g, amp) && 1 <= |ws| <= MAX_WORDS && |done| + 1 + |links| <= MAX_SEGMENTS
    ensures Scan(PrintLinks(links, g, amp), g, amp, Reading(done, ws)) == Some(done + [ws] + Segments(links))
    decreases |links|
  {
    hide Scan, PrintTokens, Words, SeparatorText, Admits, Reading, EndWord, NewSegment, Finish, PrintableToken;
    EndReading(done, ws, "");
    if links == [] {
      ScanEnd(g, amp, Reading(done, ws));
      assert done + [ws] + Segments(links) == done + [ws];
    } else {
      var l := links[0];
      var rest := PrintLinks(links[1..], g, amp);
      var body := PrintTokens(l.tokens) + rest;
      var behind := " " + body;
      assert PrintLinks(links, g, amp) == " " + (SeparatorText(l.separator) + behind);
      ScanBlank(SeparatorText(l.separator) + behind, g, amp, Reading(done, ws));
      BetweenSegments(done, ws);
      ScanSeparator(l.separator, behind, g, amp, State(done, ws, "", false));
      ScanBlank(body, g, amp, State(done + [ws], [], "", false));
      LinksEndQuoted(links[1..], g, amp);
      ScanSegment(l.tokens, rest, g, amp, done + [ws]);
      ScanLinks(links[1..], g, amp, done + [ws], Words(l.tokens));
      assert done + [ws] + [Words(l.tokens)] + Segments(links[1..]) == done + [ws] + Segments(links);
    }
  }

  lemma BetweenSegments(done: seq<Segment>, ws: Segment)
    requires ws != [] && |done| + 1 < MAX_SEGMENTS
    ensures NewSegment(State(done, ws, "", false)) == Some(State(done + [ws], [], "", false))
    ensures EndWord(State(done + [ws], [], "", false)) == Some(State(done + [ws], [], "", false))
  {
  }

  lemma TokensHaveWords(ts: seq<Token>, g: Grammar)
    requires PrintableTokens(ts, g)
    ensures 1 <= |Words(ts)| <= MAX_WORDS
  {
  }

  lemma LinksEndQuoted(links: seq<Link>, g: Grammar, amp: bool)
    requires PrintableLinks(links, g, amp)
    ensures EndsQuoted(PrintLinks(links, g, amp))
  {
  }

  function PrintCommand(first: seq<Token>, links: seq<Link>, g: Grammar, amp: bool): string
    requires PrintableTokens(first, g) && PrintableLinks(links, g, amp)
  {
    PrintTokens(first) + PrintLinks(links, g, amp)
  }

  /**
   * The scanner undoes the printer: for every grammar, every 1 to 32 segments of 1 to 256 words in quotes of their
   * own grammar or none, chained by admitted separators, within the length budget.
   */
  lemma ScanUndoesPrint(first: seq<Token>, links: seq<Link>, g: Grammar, amp: bool)
    requires PrintableTokens(first, g) && PrintableLinks(links, g, amp)
    requires |links| < MAX_SEGMENTS && |PrintCommand(first, links, g, amp)| <= MAX_LENGTH
    ensures BoundedScan(PrintCommand(first, links, g, amp), g, amp) == Some([Words(first)] + Segments(links))
  {
    hide Scan, PrintTokens, PrintLinks, PrintableTokens, PrintableLinks, Words;
    LinksEndQuoted(links, g, amp);
    TokensHaveWords(first, g);
    ScanSegment(first, PrintLinks(links, g, amp), g, amp, []);
    ScanLinks(links, g, amp, [], Words(first));
    assert [] + [Words(first)] + Segments(links) == [Words(first)] + Segments(links);
  }
}
