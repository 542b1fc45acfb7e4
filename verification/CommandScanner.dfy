/**
 * The bounded scanner: one pass over a command that yields its segments of literal words, or nothing when the command
 * holds anything outside a narrow literal grammar.
 */
module CommandScanner {
  import opened Basics
  import opened CommandText
  import opened CommandShell

  const MAX_LENGTH := 16384
  const MAX_SEGMENTS := 32
  const MAX_WORDS := 256

  type Segment = seq<string>

  /** Characters that need shell interpretation outside a quote. */
  predicate Rejected(c: char, g: Grammar) {
    match g
    case Cmd => c in "%^!<>(){}*?[]`"
    case PowerShell => c in "$`@<>(){}*?[]"
    case Posix => c in "$\\`!<>(){}*?[]"
    case Neutral => true
  }

  /** Characters that a quoted span may not hold: line ends, and what its own shell would decode or expand. */
  predicate RejectedInside(c: char, q: char, g: Grammar) {
    || c == '\n' || c == '\r'
    || (q == '"' && ((c == '\\' && g == Posix) || (c == '`' && g == PowerShell) || (c == '$' && g != Cmd)
                     || ((c == '^' || c == '%') && g == Cmd)))
  }

  datatype Quoted = Quoted(span: string, rest: string)

  /** The span up to the closing quote and what is behind it. */
  function ReadQuoted(s: string, q: char, g: Grammar): (r: Option<Quoted>)
    ensures r.Some? ==> s == r.value.span + [q] + r.value.rest
  {
    if s == "" then None
    else if s[0] == q then Some(Quoted("", s[1..]))
    else if RejectedInside(s[0], q, g) then None
    else SpanBefore([s[0]], ReadQuoted(s[1..], q, g))
  }

  /**
   * A span that is read holds no quote of its own kind and no line end, and between double quotes nothing that its
   * shell would expand or take for an escape.
   */
  lemma {:induction false} SpanIsLiteral(s: string, q: char, g: Grammar)
    requires ReadQuoted(s, q, g).Some?
    ensures forall c :: c in ReadQuoted(s, q, g).value.span ==>
      && c != q && c != '\n' && c != '\r'
      && (q == '"' ==>
            && (g == Cmd ==> c != '^' && c != '%') && (g != Cmd ==> c != '$')
            && (g == Posix ==> c != '\\') && (g == PowerShell ==> c != '`'))
  {
    if s[0] != q { SpanIsLiteral(s[1..], q, g); }
  }

  /** What may stand behind a closing quote, so that the quoted span is a whole word. */
  predicate EndsQuoted(rest: string) {
    rest == "" || IsSpace(rest[0]) || rest[0] == '&' || rest[0] == '|' || rest[0] == ';'
  }

  /** Finished segments, the words of the current one, and the word being read. */
  datatype State = State(done: seq<Segment>, words: Segment, word: string, inWord: bool)

  const START := State([], [], "", false)

  function EndWord(st: State): Option<State> {
    if !st.inWord then Some(State(st.done, st.words, "", false))
    else if |st.words| >= MAX_WORDS then None
    else Some(State(st.done, st.words + [st.word], "", false))
  }

  function NewSegment(st: State): Option<State> {
    match EndWord(st)
    case None => None
    case Some(t) =>
      if t.words == [] || |t.done| + 1 >= MAX_SEGMENTS then None else Some(State(t.done + [t.words], [], "", false))
  }

  function Finish(st: State): Option<seq<Segment>> {
    match EndWord(st)
    case None => None
    case Some(t) => if t.words == [] then None else Some(t.done + [t.words])
  }

  /** The state behind the next character, separator or quoted span, and how much of the text that was. */
  datatype Move = Move(st: State, taken: nat)

  function Taking(next: Option<State>, taken: nat): Option<Move> {
    if next == None then None else Some(Move(next.value, taken))
  }

  function Step(s: string, g: Grammar, amp: bool, st: State): (r: Option<Move>)
    requires s != ""
    ensures r.Some? ==> 1 <= r.value.taken <= |s|
  {
    if s[0] == ' ' || s[0] == '\t' then Taking(EndWord(st), 1)
    else if s[0] == '\n' || s[0] == '\r' then None
    else if s[0] == '&' && |s| > 1 && s[1] == '&' then if amp then Taking(NewSegment(st), 2) else None
    else if s[0] == ';' && g != Cmd then Taking(NewSegment(st), 1)
    else if s[0] == '&' || s[0] == '|' || s[0] == ';' then None
    else if Opens(s[0], g) then
      if st.inWord then None
      else
        match ReadQuoted(s[1..], s[0], g)
        case None => None
        case Some(r) =>
          if EndsQuoted(r.rest) then Some(Move(st.(word := r.span, inWord := true), |r.span| + 2)) else None
    else if Rejected(s[0], g) then None
    else Some(Move(st.(word := st.word + [s[0]], inWord := true), 1))
  }

  function Scan(s: string, g: Grammar, amp: bool, st: State): Option<seq<Segment>> {
    if s == "" then Finish(st)
    else
      match Step(s, g, amp, st)
      case None => None
      case Some(m) => Scan(s[m.taken..], g, amp, m.st)
  }

  lemma ScanAt(command: string, i: nat, g: Grammar, amp: bool, st: State)
    requires i < |command|
    ensures var r := Step(command[i..], g, amp, st);
      Scan(command[i..], g, amp, st) == if r == None then None
          else Scan(command[i + r.value.taken..], g, amp, r.value.st)
  {
    var r := Step(command[i..], g, amp, st);
    if r.Some? {
      assert command[i..][r.value.taken..] == command[i + r.value.taken..];
    }
  }

  lemma ScanUnfolds(s: string, g: Grammar, amp: bool, st: State)
    ensures s == "" ==> Scan(s, g, amp, st) == Finish(st)
    ensures s != "" && Scan(s, g, amp, st).Some? ==> Step(s, g, amp, st).Some?
    ensures s != "" && Step(s, g, amp, st).Some? ==>
      Scan(s, g, amp, st) == Scan(s[Step(s, g, amp, st).value.taken..], g, amp, Step(s, g, amp, st).value.st)
  {
  }

  lemma StepOverSpan(c: char, s: string, r: Quoted, g: Grammar, amp: bool, st: State)
    requires Opens(c, g) && ReadQuoted(s, c, g) == Some(r) && EndsQuoted(r.rest) && !st.inWord
    ensures Step([c] + s, g, amp, st) == Some(Move(st.(word := r.span, inWord := true), |r.span| + 2))
  {
    hide ReadQuoted, EndsQuoted, Rejected, EndWord, NewSegment;
    assert ([c] + s)[1..] == s;
  }

  /** A whole quoted span between words is read as one word. */
  lemma ScanSpan(c: char, span: string, rest: string, g: Grammar, amp: bool, st: State)
    requires Opens(c, g) && ReadQuoted(span + [c] + rest, c, g) == Some(Quoted(span, rest))
    requires EndsQuoted(rest) && !st.inWord
    ensures Scan([c] + span + [c] + rest, g, amp, st) == Scan(rest, g, amp, st.(word := span, inWord := true))
  {
    hide ReadQuoted, EndsQuoted, Opens, Step, Scan;
    var s := span + [c] + rest;
    assert [c] + span + [c] + rest == [c] + s;
    assert ([c] + s)[|span| + 2..] == rest;
    StepOverSpan(c, s, Quoted(span, rest), g, amp, st);
    ScanUnfolds([c] + s, g, amp, st);
  }

  function BoundedScan(command: string, g: Grammar, amp: bool): Option<seq<Segment>> {
    if |command| > MAX_LENGTH then None else Scan(command, g, amp, START)
  }

  /** The scanner as one loop over an index, with the quoted spans read by an inner loop. */
  method RunBoundedScan(command: string, g: Grammar, allowDoubleAmp: bool) returns (r: Option<seq<Segment>>)
    ensures r == BoundedScan(command, g, allowDoubleAmp)
  {
    if |command| > MAX_LENGTH {
      return None;
    }
    hide Scan, Step;
    var st := START;
    var i := 0;
    assert command[0..] == command;
    while i < |command|
      invariant i <= |command|
      invariant Scan(command[i..], g, allowDoubleAmp, st) == Scan(command, g, allowDoubleAmp, START)
      decreases |command| - i
    {
      ScanAt(command, i, g, allowDoubleAmp, st);
      var next := TakeStep(command[i..], g, allowDoubleAmp, st);
      if next == None { return None; }
      st, i := next.value.st, i + next.value.taken;
    }
    assert command[i..] == "";
    ScanEnd(g, allowDoubleAmp, st);
    r := Finish(st);
  }

  /** The loop's body, at the first character of what is left. */
  method TakeStep(rest: string, g: Grammar, allowDoubleAmp: bool, st: State) returns (r: Option<Move>)
    requires rest != ""
    ensures r == Step(rest, g, allowDoubleAmp, st)
  {
    hide ReadQuoted, Rejected, EndWord, NewSegment, EndsQuoted;
    var c := rest[0];
    if c == ' ' || c == '\t' {
      return Taking(EndWord(st), 1);
    }
    if c == '\n' || c == '\r' {
      return None;
    }
    if c == '&' && |rest| > 1 && rest[1] == '&' {
      var next := NewSegment(st);
      return if !allowDoubleAmp then None else Taking(next, 2);
    }
    if c == ';' && g != Cmd {
      return Taking(NewSegment(st), 1);
    }
    if c == '&' || c == '|' || c == ';' {
      return None;
    }
    if Opens(c, g) {
      if st.inWord { return None; }
      var quoted := RunReadQuoted(rest, 1, c, g);
      if quoted == None { return None; }
      var (span, j) := quoted.value;
      if !EndsQuoted(rest[j + 1..]) { return None; }
      return Some(Move(st.(word := span, inWord := true), j + 1));
    }
    if Rejected(c, g) {
      return None;
    }
    r := Some(Move(st.(word := st.word + [c], inWord := true), 1));
  }

  lemma ScanEnd(g: Grammar, amp: bool, st: State)
    ensures Scan("", g, amp, st) == Finish(st)
  {
  }

  /** The inner loop: the span from `first` and the index of its closing quote. */
  method RunReadQuoted(command: string, first: nat, q: char, g: Grammar) returns (r: Option<(string, nat)>)
    requires first <= |command|
    ensures r.None? <==> ReadQuoted(command[first..], q, g).None?
    ensures r.Some? ==>
      && r.value.1 == first + |r.value.0| < |command|
      && ReadQuoted(command[first..], q, g) == Some(Quoted(r.value.0, command[r.value.1 + 1..]))
  {
    hide ReadQuoted, RejectedInside;
    var span := "";
    var j := first;
    SpanBeforeNothing(ReadQuoted(command[first..], q, g));
    while j < |command|
      invariant first <= j <= |command| && j == first + |span|
      invariant ReadQuoted(command[first..], q, g) == SpanBefore(span, ReadQuoted(command[j..], q, g))
      decreases |command| - j
    {
      var c := command[j];
      ReadQuotedAt(command, j, q, g);
      if c == q {
        assert span + "" == span;
        return Some((span, j));
      }
      if RejectedInside(c, q, g) {
        return None;
      }
      SpanBeforeStep(span, c, ReadQuoted(command[j + 1..], q, g));
      span := span + [c];
      j := j + 1;
    }
    ReadQuotedAt(command, j, q, g);
    r := None;
  }

  lemma ReadQuotedAt(command: string, j: nat, q: char, g: Grammar)
    requires j <= |command|
    ensures ReadQuoted(command[j..], q, g) ==
      if j == |command| then None
      else if command[j] == q then Some(Quoted("", command[j + 1..]))
      else if RejectedInside(command[j], q, g) then None
      else SpanBefore([command[j]], ReadQuoted(command[j + 1..], q, g))
  {
    assert j < |command| ==> command[j..][1..] == command[j + 1..];
  }

  function SpanBefore(span: string, r: Option<Quoted>): Option<Quoted> {
    if r == None then None else Some(Quoted(span + r.value.span, r.value.rest))
  }

  lemma SpanBeforeNothing(r: Option<Quoted>)
    ensures SpanBefore("", r) == r
  {
    assert r.Some? ==> "" + r.value.span == r.value.span;
  }

  lemma SpanBeforeStep(span: string, c: char, r: Option<Quoted>)
    ensures SpanBefore(span, SpanBefore([c], r)) == SpanBefore(span + [c], r)
  {
    if r.Some? {
      assert span + ([c] + r.value.span) == span + [c] + r.value.span;
    }
  }
}
