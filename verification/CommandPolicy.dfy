/** The command policy: what the scanner reports, and what each approval mode makes of it. */
module CommandPolicy {
  import opened Basics
  import opened CommandText
  import opened CommandShell
  import opened CommandScanner
  import opened RawSegments

  datatype Mode = Off | Allowlist | Ask | All

  /** A template that a person allowed, which counts for commands of this grammar alone. */
  datatype Key = Key(grammar: Grammar, template: string)

  /**
   * The recognition tables, which the policy takes as they are: destructive text, segments that run another script,
   * deletes of protected targets, PowerShell delete parameters it does not read, expandable targets, cmdlet templates.
   */
  datatype Tables = Tables(
    destructive: string -> bool,
    wrapper: Segment -> bool,
    protectedDelete: (seq<Segment>, Grammar) -> bool,
    unreadParameter: Segment -> bool,
    expandableTarget: (seq<Segment>, Grammar) -> bool,
    cmdlet: string -> bool)

  datatype Inspection = Blocked | Unread | Supported(segments: seq<Segment>)

  /** `unread`: the scanner would not decode the command. The reason texts are left out. */
  datatype Verdict = Verdict(allowed: bool, ask: bool, unread: bool, dangerous: bool, disabled: bool)

  const ALLOWED := Verdict(true, false, false, false, false)
  const DENIED := Verdict(false, false, false, false, false)
  const ASKED := Verdict(false, true, false, false, false)

  function Any<T>(p: T -> bool, xs: seq<T>): bool { exists k :: 0 <= k < |xs| && p(xs[k]) }

  function Inspect(command: string, shell: Shell, tables: Tables): Inspection {
    var text := Trim(command);
    if text == "" then Unread
    else if tables.destructive(text) then Blocked
    else if shell.grammar == Neutral then Unread
    else
      match BoundedScan(text, shell.grammar, shell.grammar != PowerShell || shell.kind == Pwsh)
      case None => Unread
      case Some(segments) =>
        if Any(tables.wrapper, segments) then Unread
        else if tables.protectedDelete(segments, shell.grammar) then Blocked
        else if shell.grammar == PowerShell && Any(tables.unreadParameter, segments) then Unread
        else if tables.expandableTarget(segments, shell.grammar) then Unread
        else Supported(segments)
  }

  datatype Policy = Policy(mode: Mode, configured: seq<string>, project: seq<Key>)

  predicate RunsUnder(template: string, g: Grammar, tables: Tables) { g == PowerShell || !tables.cmdlet(template) }

  /** What may match silently in one grammar: configured templates it can run, and grants given in exactly it. */
  function AllowlistFor(policy: Policy, g: Grammar, tables: Tables): set<string> {
    (set t | t in policy.configured && RunsUnder(t, g, tables))
    + (set k | k in policy.project && k.grammar == g && RunsUnder(k.template, g, tables) :: k.template)
  }

  /** A piece is an allowlisted entry, or continues one behind a space. */
  predicate Matches(piece: string, entry: string) { Lower(piece) == entry || entry + " " <= Lower(piece) }

  predicate IsAllowlisted(piece: string, allowlist: set<string>) {
    exists entry :: entry in allowlist && Matches(piece, entry)
  }

  predicate EverySegmentIsAllowlisted(pieces: seq<string>, allowlist: set<string>) {
    forall k :: 0 <= k < |pieces| ==> IsAllowlisted(pieces[k], allowlist)
  }

  function UnreadVerdict(mode: Mode): Verdict {
    match mode
    case Off => Verdict(false, false, true, false, true)
    case All => Verdict(true, false, true, false, false)
    case Allowlist => Verdict(false, false, true, false, false)
    case Ask => Verdict(false, true, true, false, false)
  }

  predicate SilentlyAllowed(policy: Policy, command: string, shell: Shell, tables: Tables) {
    var pieces := AutoAllowSegments(command, shell);
    pieces.Some? && EverySegmentIsAllowlisted(pieces.value, AllowlistFor(policy, shell.grammar, tables))
  }

  function Check(policy: Policy, rawCommand: string, shell: Shell, tables: Tables): Verdict {
    var command := Trim(rawCommand);
    if command == "" then DENIED
    else if policy.mode == Off then Verdict(false, false, false, false, true)
    else
      match Inspect(command, shell, tables)
      case Blocked => Verdict(false, true, false, true, false)
      case Unread => UnreadVerdict(policy.mode)
      case Supported(_) =>
        match policy.mode
        case All => ALLOWED
        case Allowlist => if SilentlyAllowed(policy, command, shell, tables) then ALLOWED else DENIED
        case Ask => if SilentlyAllowed(policy, command, shell, tables) then ALLOWED else ASKED
        case Off => DENIED
  }

  /** A piece is covered by an entry exactly when it is the entry, but for case, or goes on behind it with a space. */
  lemma MatchesIff(piece: string, entry: string)
    ensures Matches(piece, entry) <==>
      exists rest :: (rest == "" || rest[0] == ' ') && Lower(piece) == entry + rest
  {
    hide Lower;
    var p := Lower(piece);
    if Matches(piece, entry) {
      var rest := p[|entry|..];
      if p == entry { assert rest == "" && p == entry + rest; }
      if entry + " " <= p {
        assert p[..|entry|] == (entry + " ")[..|entry|] == entry && p[|entry|] == (entry + " ")[|entry|] == ' ';
        assert p == entry + rest && rest[0] == ' ';
      }
    }
    if rest :| (rest == "" || rest[0] == ' ') && p == entry + rest {
      if rest == "" { assert p == entry; } else { assert p[..|entry| + 1] == entry + " "; }
    }
  }

  /** What may match in one grammar is configured or was granted in that very grammar, and runs there. */
  lemma AllowlistIs(policy: Policy, g: Grammar, tables: Tables, t: string)
    ensures t in AllowlistFor(policy, g, tables) <==>
      && (t in policy.configured || Key(g, t) in policy.project)
      && (tables.cmdlet(t) ==> g == PowerShell)
  {
  }

  // ---------- what a verdict says, mode by mode ----------

  /** The scanner reads the text, and no segment of it runs another script. */
  ghost predicate IsRead(text: string, shell: Shell, tables: Tables) {
    && shell.grammar != Neutral
    && ScanOf(text, shell).Some?
    && forall k :: 0 <= k < |ScanOf(text, shell).value| ==> !tables.wrapper(ScanOf(text, shell).value[k])
  }

  /** PowerShell up to version 5 has no double ampersand. */
  ghost function ScanOf(text: string, shell: Shell): Option<seq<Segment>> {
    BoundedScan(text, shell.grammar, shell.kind == Pwsh || shell.grammar in {Cmd, Posix, Neutral})
  }

  ghost predicate IsDangerous(text: string, shell: Shell, tables: Tables) {
    tables.destructive(text) || (IsRead(text, shell, tables)
                                 && tables.protectedDelete(ScanOf(text, shell).value, shell.grammar))
  }

  /** A command that is read as literal words in full: no parameter and no target of a delete is left to guess. */
  ghost predicate IsLiteral(text: string, shell: Shell, tables: Tables) {
    && IsRead(text, shell, tables)
    && !tables.expandableTarget(ScanOf(text, shell).value, shell.grammar)
    && (shell.grammar == PowerShell ==>
          forall k :: 0 <= k < |ScanOf(text, shell).value| ==> !tables.unreadParameter(ScanOf(text, shell).value[k]))
  }

  /**
   * The verdict on a command, by what the tables and the scanner find: off, nothing runs and nothing is asked; danger
   * is asked in every other mode and never runs unasked; what is not literal runs in all mode alone; and what is
   * literal runs unasked in all mode, or when the allowlist covers it.
   */
  ghost predicate IsVerdict(v: Verdict, policy: Policy, command: string, shell: Shell, tables: Tables) {
    var text := Trim(command);
    if text == "" || policy.mode == Off then
      !v.allowed && !v.ask && !v.dangerous && !v.unread && (v.disabled <==> text != "")
    else if IsDangerous(text, shell, tables) then
      !v.allowed && v.ask && v.dangerous && !v.disabled && !v.unread
    else
      && !v.dangerous && !v.disabled
      && (v.unread <==> !IsLiteral(text, shell, tables))
      && (v.allowed <==> policy.mode == All || (!v.unread && SilentlyAllowed(policy, text, shell, tables)))
      && (v.ask <==> policy.mode == Ask && !v.allowed)
  }

  lemma VerdictIs(policy: Policy, command: string, shell: Shell, tables: Tables)
    ensures IsVerdict(Check(policy, command, shell, tables), policy, command, shell, tables)
  {
    hide Trim, BoundedScan, SilentlyAllowed;
    TrimIdempotent(command);
  }

  /** The reading of a command on its own, and the verdict on one that was not read, mode by mode. */
  lemma InspectionIs(command: string, shell: Shell, tables: Tables)
    ensures var inspection, text := Inspect(command, shell, tables), Trim(command);
      && (inspection == Blocked <==> text != "" && IsDangerous(text, shell, tables))
      && (inspection.Supported? <==> text != "" && !IsDangerous(text, shell, tables) && IsLiteral(text, shell, tables))
      && (inspection.Supported? ==> inspection.segments == ScanOf(text, shell).value)
    ensures forall mode :: var v := UnreadVerdict(mode);
      && v.unread && !v.dangerous && (v.allowed <==> mode == All) && (v.ask <==> mode == Ask)
      && (v.disabled <==> mode == Off)
  {
    hide Trim, BoundedScan;
  }

  /** A recognised danger never runs unasked, whatever the mode, the allowlist and the shell. */
  lemma DangerIsAsked(policy: Policy, command: string, shell: Shell, tables: Tables)
    requires policy.mode != Off && Trim(command) != ""
    requires tables.destructive(Trim(command))
    ensures var v := Check(policy, command, shell, tables); !v.allowed && v.ask && v.dangerous
  {
    hide Trim, SilentlyAllowed, BoundedScan;
    VerdictIs(policy, command, shell, tables);
  }

  lemma LastIn<T>(xs: seq<T>)
    requires xs != []
    ensures forall x :: x in xs <==> x in xs[..|xs| - 1] || x == xs[|xs| - 1]
  {
    assert xs == xs[..|xs| - 1] + [xs[|xs| - 1]];
  }

  predicate EachOnce<T(==)>(xs: seq<T>) { forall i, j :: 0 <= i < j < |xs| ==> xs[i] != xs[j] }

  /** Templates as kept: trimmed, lower case, non-empty, each once. */
  function NormalizeTemplates(entries: seq<string>): (r: seq<string>)
    ensures forall t :: t in r <==> t != "" && exists e :: e in entries && Lower(Trim(e)) == t
    ensures EachOnce(r)
  {
    if entries == [] then []
    else
      var more := NormalizeTemplates(entries[..|entries| - 1]);
      var last := entries[|entries| - 1];
      var t := Lower(Trim(last));
      LastIn(entries);
      if t == "" || t in more then more else more + [t]
  }

  function NormalizeKeys(keys: seq<Key>): (r: seq<Key>)
    ensures forall k :: k in r <==>
      && k.template != "" && k.grammar != Neutral
      && exists e :: e in keys && e.grammar == k.grammar && Lower(Trim(e.template)) == k.template
    ensures EachOnce(r)
  {
    if keys == [] then []
    else
      var more := NormalizeKeys(keys[..|keys| - 1]);
      var last := keys[|keys| - 1];
      var k := Key(last.grammar, Lower(Trim(last.template)));
      LastIn(keys);
      if k.template == "" || k.grammar == Neutral || k in more then more else more + [k]
  }

  /** The policy object: replaceable inputs, and a hook that fires once, on the first command refused while off. */
  class CommandPolicy {
    var mode: Mode
    var configured: seq<string>
    var project: seq<Key>
    var blockPrompted: bool
    const tables: Tables

    function Current(): Policy
      reads this
    {
      Policy(mode, configured, project)
    }

    constructor (mode: Mode, configured: seq<string>, project: seq<Key>, tables: Tables)
      ensures Current() == Policy(mode, NormalizeTemplates(configured), NormalizeKeys(project))
      ensures !blockPrompted && this.tables == tables
    {
      this.mode := mode;
      this.configured := NormalizeTemplates(configured);
      this.project := NormalizeKeys(project);
      blockPrompted := false;
      this.tables := tables;
    }

    method Reload(mode: Mode, configured: seq<string>, project: seq<Key>)
      modifies this
      ensures Current() == Policy(mode, NormalizeTemplates(configured), NormalizeKeys(project))
      ensures blockPrompted == old(blockPrompted)
    {
      this.mode := mode;
      this.configured := NormalizeTemplates(configured);
      this.project := NormalizeKeys(project);
    }

    /** `prompt`: the hook fired; only ever the first time a non-blank command is refused because commands are off. */
    method Judge(command: string, shell: Shell) returns (v: Verdict, prompt: bool)
      modifies this`blockPrompted
      ensures v == Check(Current(), command, shell, tables) && IsVerdict(v, Current(), command, shell, tables)
      ensures prompt <==> !old(blockPrompted) && mode == Off && Trim(command) != ""
      ensures blockPrompted == (old(blockPrompted) || prompt)
    {
      prompt := false;
      if Trim(command) != "" && mode == Off && !blockPrompted {
        blockPrompted := true;
        prompt := true;
      }
      VerdictIs(Current(), command, shell, tables);
      v := Check(Current(), command, shell, tables);
    }
  }

  // ---------- the verdict is sound against the scanner ----------

  lemma TrimStartIdempotent(s: string)
    requires s == "" || !IsSpace(s[0])
    ensures TrimStart(s) == s
  {
  }

  lemma {:induction false} TrimEndFirst(s: string)
    ensures TrimEnd(s) != "" ==> s != "" && TrimEnd(s)[0] == s[0]
  {
  }

  lemma TrimIdempotent(s: string)
    ensures Trim(Trim(s)) == Trim(s)
  {
    TrimStartSplits(s);
    TrimEndFirst(TrimStart(s));
    TrimStartIdempotent(Trim(s));
    TrimEndIdempotent(TrimStart(s));
  }

  /** No entry leaves a quote open; entries with closed quotes are fine. */
  predicate EntriesClose(allowlist: set<string>, g: Grammar) { forall e :: e in allowlist ==> Outside(e, g).Some? }

  predicate InEach(pieces: seq<string>, allowlist: set<string>) {
    pieces != [] ==> IsAllowlisted(Trim(pieces[0]), allowlist) && InEach(pieces[1..], allowlist)
  }

  lemma {:induction false} EachOf(pieces: seq<string>, allowlist: set<string>)
    requires EverySegmentIsAllowlisted(TrimAll(pieces), allowlist)
    ensures InEach(pieces, allowlist)
  {
    hide IsAllowlisted, Trim;
    if pieces != [] {
      assert TrimAll(pieces)[0] == Trim(pieces[0]);
      forall k | 0 <= k < |TrimAll(pieces[1..])| ensures IsAllowlisted(TrimAll(pieces[1..])[k], allowlist) {
        assert TrimAll(pieces[1..])[k] == TrimAll(pieces)[k + 1];
      }
      EachOf(pieces[1..], allowlist);
    }
  }

  lemma {:induction false} InEachConcat(a: seq<string>, b: seq<string>, allowlist: set<string>)
    requires InEach(a + b, allowlist)
    ensures InEach(a, allowlist) && InEach(b, allowlist)
  {
    hide IsAllowlisted;
    if a == [] {
      assert a + b == b;
    } else {
      assert (a + b)[1..] == a[1..] + b;
      InEachConcat(a[1..], b, allowlist);
    }
  }

  // Lower case and trimming neither open nor close a quote.

  lemma {:induction false} LowerOutside(s: string, g: Grammar)
    ensures Outside(Lower(s), g).Some? <==> Outside(s, g).Some?
    decreases |s|
  {
    if s != "" {
      assert Lower(s)[1..] == Lower(s[1..]);
      if Opens(s[0], g) { LowerInside(s[1..], s[0], g); } else { LowerOutside(s[1..], g); }
    }
  }

  lemma InsideStep(s: string, open: char, g: Grammar)
    requires s != ""
    ensures Inside(s, open, g) ==
            if s[0] == open then
              if g == PowerShell && |s| > 1 && s[1] == open then Inside(s[2..], open, g)
              else Prefixed(" ", Outside(s[1..], g))
            else if s[0] == '\\' && open == '"' && g == Posix then if |s| > 1 then Inside(s[2..], open, g) else None
            else Inside(s[1..], open, g)
  {
  }

  lemma {:induction false} LowerInside(s: string, open: char, g: Grammar)
    requires IsQuote(open)
    ensures Inside(Lower(s), open, g).Some? <==> Inside(s, open, g).Some?
    decreases |s|
  {
    hide Inside, Outside;
    if s == "" {
      assert Lower(s) == s;
    } else {
      InsideStep(s, open, g);
      InsideStep(Lower(s), open, g);
      assert Lower(s)[1..] == Lower(s[1..]);
      LowerOutside(s[1..], g);
      LowerInside(s[1..], open, g);
      if |s| > 1 {
        assert Lower(s)[2..] == Lower(s[2..]);
        LowerInside(s[2..], open, g);
      }
    }
  }

  lemma {:induction false} OutsideSpace(s: string, c: char, g: Grammar)
    requires IsSpace(c)
    ensures Outside(s + [c], g).Some? <==> Outside(s, g).Some?
    decreases |s|
  {
    if s == "" {
      assert s + [c] == [c] && [c][1..] == "";
    } else {
      assert (s + [c])[1..] == s[1..] + [c];
      if Opens(s[0], g) { InsideSpace(s[1..], s[0], c, g); } else { OutsideSpace(s[1..], c, g); }
    }
  }

  lemma NothingInside(c: char, open: char, g: Grammar)
    requires c != open
    ensures Inside("", open, g) == None && Inside([c], open, g) == None
  {
    assert [c][1..] == "";
  }

  lemma {:induction false} InsideSpace(s: string, open: char, c: char, g: Grammar)
    requires IsSpace(c) && IsQuote(open)
    ensures Inside(s + [c], open, g).Some? <==> Inside(s, open, g).Some?
    decreases |s|
  {
    hide Inside, Outside;
    NothingInside(c, open, g);
    if s == "" {
      assert s + [c] == [c];
    } else {
      InsideStep(s, open, g);
      InsideStep(s + [c], open, g);
      assert (s + [c])[1..] == s[1..] + [c];
      OutsideSpace(s[1..], c, g);
      InsideSpace(s[1..], open, c, g);
      if |s| > 1 {
        assert (s + [c])[2..] == s[2..] + [c];
        InsideSpace(s[2..], open, c, g);
      } else {
        assert (s + [c])[2..] == "";
      }
    }
  }

  lemma {:induction false} TrimStartOutside(s: string, g: Grammar)
    ensures Outside(TrimStart(s), g).Some? <==> Outside(s, g).Some?
  {
    if s != "" && IsSpace(s[0]) { TrimStartOutside(s[1..], g); }
  }

  lemma {:induction false} TrimEndOutside(s: string, g: Grammar)
    ensures Outside(TrimEnd(s), g).Some? <==> Outside(s, g).Some?
  {
    if s != "" && IsSpace(s[|s| - 1]) {
      TrimEndOutside(s[..|s| - 1], g);
      OutsideSpace(s[..|s| - 1], s[|s| - 1], g);
      assert s == s[..|s| - 1] + [s[|s| - 1]];
    }
  }

  /** A piece as it is matched leaves a quote open exactly when it does as it is written. */
  lemma MatchedOutside(s: string, g: Grammar)
    ensures Outside(Trim(s), g).Some? <==> Outside(s, g).Some?
    ensures Outside(Lower(Trim(s)), g).Some? <==> Outside(s, g).Some?
  {
    TrimStartOutside(s, g);
    TrimEndOutside(TrimStart(s), g);
    LowerOutside(Trim(s), g);
  }

  /**
   * The splitter's cut inside a quote has deceived the allowlist: what stands in front of the cut is an entry, and no
   * entry rescues the piece. Two kinds could: one that ends earlier, at a space in front of the cut, and one that
   * begins with all of that text and runs past the cut, of which the whole piece has to be asked.
   */
  predicate CutOff(piece: string, g: Grammar, amp: bool, allowlist: set<string>) {
    var pieces := SplitAt(piece, g != Cmd, amp);
    var first := Trim(pieces[0]);
    && |pieces| > 1
    && (forall e :: e in allowlist ==> !EndsEarlier(first, e))
    && (forall e :: e in allowlist ==> !RunsPast(first, piece, e))
  }

  predicate EndsEarlier(first: string, e: string) { e + " " <= Lower(first) }

  predicate RunsPast(first: string, piece: string, e: string) { Lower(first) <= e && Matches(Trim(piece), e) }

  /** What stands in front of a quoted cut begins the whole piece, as both are matched. */
  lemma FrontOfPiece(piece: string, g: Grammar, amp: bool)
    requires FirstCutIsQuoted(piece, g, amp) && |SplitAt(piece, g != Cmd, amp)| > 1
    ensures var first := SplitAt(piece, g != Cmd, amp)[0];
      Outside(Lower(Trim(first)), g) == None && Lower(Trim(first)) <= Lower(Trim(piece))
  {
    hide SplitAt, Trim, Lower;
    var first := SplitAt(piece, g != Cmd, amp)[0];
    CutIsInside(piece, g != Cmd, amp);
    MatchedOutside(first, g);
    assert Trim(first) != "";
    assert piece == first + piece[|first|..];
    TrimExtends(first, piece[|first|..]);
    LowerKeepsPrefix(Trim(first), Trim(piece));
  }

  /**
   * A scanner piece whose splitter pieces are allowlisted is allowlisted as a whole if and only if it is not cut off.
   */
  lemma PieceIsAllowlistedIff(piece: string, g: Grammar, amp: bool, allowlist: set<string>)
    requires FirstCutIsQuoted(piece, g, amp)
    requires IsAllowlisted(Trim(SplitAt(piece, g != Cmd, amp)[0]), allowlist)
    ensures IsAllowlisted(Trim(piece), allowlist) <==> !CutOff(piece, g, amp, allowlist)
  {
    hide SplitAt, Trim, Lower, FirstCutIsQuoted;
    CutIsInside(piece, g != Cmd, amp);
    if |SplitAt(piece, g != Cmd, amp)| > 1 {
      var first := Trim(SplitAt(piece, g != Cmd, amp)[0]);
      FrontOfPiece(piece, g, amp);
      LowerLengths(first, Trim(piece));
      if e :| e in allowlist && Matches(first, e) && e != Lower(first) {
        assert Matches(Trim(piece), e);
      }
    }
  }

  lemma LowerLengths(a: string, b: string)
    ensures |Lower(a)| == |a| && |Lower(b)| == |b|
  {
  }

  /** A piece is only cut off by an entry that leaves a quote open. */
  lemma CutOffByOpenEntry(piece: string, g: Grammar, amp: bool, allowlist: set<string>)
    requires FirstCutIsQuoted(piece, g, amp) && CutOff(piece, g, amp, allowlist)
    requires IsAllowlisted(Trim(SplitAt(piece, g != Cmd, amp)[0]), allowlist)
    ensures !EntriesClose(allowlist, g)
  {
    hide SplitAt, Trim, Lower, Outside, FirstCutIsQuoted;
    FrontOfPiece(piece, g, amp);
  }

  predicate AllAllowlisted(pieces: seq<string>, allowlist: set<string>) {
    pieces != [] ==> IsAllowlisted(Trim(pieces[0]), allowlist) && AllAllowlisted(pieces[1..], allowlist)
  }

  predicate NoneCutOff(pieces: seq<string>, g: Grammar, amp: bool, allowlist: set<string>) {
    pieces != [] ==> !CutOff(pieces[0], g, amp, allowlist) && NoneCutOff(pieces[1..], g, amp, allowlist)
  }

  lemma {:induction false} PiecesAreAllowlistedIff(pieces: seq<string>, g: Grammar, amp: bool, allowlist: set<string>)
    requires AllCutOnlyQuoted(pieces, g, amp)
    requires InEach(SplitEach(pieces, g != Cmd, amp), allowlist)
    ensures AllAllowlisted(pieces, allowlist) <==> NoneCutOff(pieces, g, amp, allowlist)
    ensures EntriesClose(allowlist, g) ==> NoneCutOff(pieces, g, amp, allowlist)
  {
    hide SplitAt, IsAllowlisted, FirstCutIsQuoted, CutOff, Trim, EntriesClose;
    if pieces != [] {
      InEachConcat(SplitAt(pieces[0], g != Cmd, amp), SplitEach(pieces[1..], g != Cmd, amp), allowlist);
      PieceIsAllowlistedIff(pieces[0], g, amp, allowlist);
      if CutOff(pieces[0], g, amp, allowlist) { CutOffByOpenEntry(pieces[0], g, amp, allowlist); }
      PiecesAreAllowlistedIff(pieces[1..], g, amp, allowlist);
    }
  }

  /**
   * Every command, shell, allowlist and set of tables: a command that the policy allows in allowlist mode, or without a
   * prompt in ask mode, was read by the scanner, its text between the scanner's separators holds the reported segments,
   * and every such text is an allowlisted entry or continues one behind a space, if and only if none of them is cut off
   * inside a quote.
   */
  lemma AllowedIsSoundIff(policy: Policy, rawCommand: string, shell: Shell, tables: Tables)
    requires policy.mode == Allowlist || policy.mode == Ask
    requires Check(policy, rawCommand, shell, tables).allowed
    ensures var text, g := Trim(rawCommand), shell.grammar;
      var amp, allowlist := g != PowerShell || shell.kind == Pwsh, AllowlistFor(policy, g, tables);
      && g != Neutral
      && BoundedScan(text, g, amp).Some?
      && Inspect(text, shell, tables) == Supported(BoundedScan(text, g, amp).value)
      && PiecesAre(Raw(text, g), BoundedScan(text, g, amp).value, g, amp)
      && (AllAllowlisted(Raw(text, g), allowlist) <==> NoneCutOff(Raw(text, g), g, amp, allowlist))
      && (EntriesClose(allowlist, g) ==> NoneCutOff(Raw(text, g), g, amp, allowlist))
  {
    hide Trim, BoundedScan, SplitAt, SplitEach, InEach, AllAllowlisted, NoneCutOff, AllCutOnlyQuoted, PiecesAre, Raw,
        Outside,
      Blanked, HasUnsupported, AllowlistFor, EverySegmentIsAllowlisted, EntriesClose, OutsideEach, AllClosed;
    var text := Trim(rawCommand);
    var g := shell.grammar;
    var amp := g != PowerShell || shell.kind == Pwsh;
    var allowlist := AllowlistFor(policy, g, tables);
    TrimIdempotent(rawCommand);
    EachOf(SplitAt(text, g != Cmd, amp), allowlist);
    ScannedOf(text, g, amp);
    SplitterAgrees(text, g, amp, START);
    PiecesAreAllowlistedIff(Raw(text, g), g, amp, allowlist);
    SegmentsAreTheirText(text, g, amp);
  }

  /** With an allowlist whose entries close their quotes, every scanner segment of an allowed command is allowlisted. */
  lemma AllowedIsSound(policy: Policy, rawCommand: string, shell: Shell, tables: Tables)
    requires policy.mode == Allowlist || policy.mode == Ask
    requires Check(policy, rawCommand, shell, tables).allowed
    requires EntriesClose(AllowlistFor(policy, shell.grammar, tables), shell.grammar)
    ensures AllAllowlisted(Raw(Trim(rawCommand), shell.grammar), AllowlistFor(policy, shell.grammar, tables))
  {
    hide Check, AllAllowlisted, NoneCutOff, EntriesClose, AllowlistFor, Raw, Trim;
    AllowedIsSoundIff(policy, rawCommand, shell, tables);
  }

  // ---------- what an allowed command holds, and what is allowed ----------

  /** A semicolon where those separate, or one of two ampersands together where those do. */
  predicate PartOfSeparator(s: string, semi: bool, amp: bool, k: nat)
    requires k < |s|
  {
    || (semi && s[k] == ';')
    || (amp && s[k] == '&' && ((k > 0 && s[k - 1] == '&') || (k + 1 < |s| && s[k + 1] == '&')))
  }

  /** Blanking the separators keeps every other character, and what stands behind it. */
  lemma {:induction false} BlankedKeeps(s: string, semi: bool, amp: bool, k: nat)
    requires k < |s| && !PartOfSeparator(s, semi, amp, k)
    ensures exists j :: 0 <= j < |Blanked(s, semi, amp)| && KeptAt(s, k, Blanked(s, semi, amp), j)
    decreases |s|
  {
    var n := if amp && "&&" <= s then 2 else 1;
    var b := Blanked(s, semi, amp);
    assert |b| == 1 + |Blanked(s[n..], semi, amp)| && b[1..] == Blanked(s[n..], semi, amp);
    if k >= n {
      assert k - n > 0 ==> s[n..][k - n - 1] == s[k - 1];
      assert k + 1 < |s| ==> s[n..][k - n + 1] == s[k + 1];
      BlankedKeeps(s[n..], semi, amp, k - n);
      var j :| 0 <= j < |Blanked(s[n..], semi, amp)| && KeptAt(s[n..], k - n, Blanked(s[n..], semi, amp), j);
      assert s[n..][k - n] == s[k] && (k + 1 < |s| ==> s[n..][k - n + 1] == s[k + 1]);
      assert KeptAt(s, k, b, j + 1);
    } else {
      assert n == 1 && k == 0;
      BlankedStarts(s[1..], semi, amp);
      assert KeptAt(s, 0, b, 0);
    }
  }

  predicate KeptAt(s: string, k: nat, b: string, j: nat)
    requires k < |s| && j < |b|
  {
    && b[j] == s[k]
    && (k + 1 < |s| && s[k + 1] != '&' && s[k + 1] != ';' ==> j + 1 < |b| && b[j + 1] == s[k + 1])
  }

  lemma BlankedStarts(s: string, semi: bool, amp: bool)
    ensures s != "" && s[0] != '&' && s[0] != ';' ==> Blanked(s, semi, amp) != "" && Blanked(s, semi, amp)[0] == s[0]
  {
  }

  /** Characters that a shell may act on, inside quotes too. */
  predicate ShellActsOn(c: char, g: Grammar) {
    || c in "|<>()\n\r"
    || (c in "^%" && g == Cmd) || (c in "`{}$@" && g == PowerShell) || (c in "`!" && g == Posix)
  }

  /**
   * Whatever the allowlist and the tables: a command that runs without a prompt because of the allowlist holds, inside
   * quotes too, no pipe, redirection, group or line end, none of its shell's own expansions, and no semicolon or
   * ampersand but those that chain commands there.
   */
  lemma AllowedHoldsNoOperator(policy: Policy, command: string, shell: Shell, tables: Tables, k: nat)
    requires policy.mode == Allowlist || policy.mode == Ask
    requires Check(policy, command, shell, tables).allowed && k < |Trim(command)|
    ensures var text := Trim(command);
      && !ShellActsOn(text[k], shell.grammar)
      && !(shell.grammar == Posix && text[k] == '$' && k + 1 < |text| && (text[k + 1] == '(' || text[k + 1] == '{'))
      && (text[k] == ';' ==> shell.grammar != Cmd)
      && (text[k] == '&' ==>
            && (shell.grammar == PowerShell ==> shell.kind == Pwsh)
            && ((k > 0 && text[k - 1] == '&') || (k + 1 < |text| && text[k + 1] == '&')))
  {
    hide Trim, SplitAt, Blanked, Outside, BoundedScan, EverySegmentIsAllowlisted, IsLiteral, IsDangerous;
    var text, g := Trim(command), shell.grammar;
    VerdictIs(policy, command, shell, tables);
    TrimIdempotent(command);
    AllowedIsRead(policy, command, shell, tables);
    var semi, amp := AdmitsSemicolon(shell), AdmitsDoubleAmp(shell);
    if !PartOfSeparator(text, semi, amp, k) {
      BlankedKeeps(text, semi, amp, k);
      var b := Blanked(text, semi, amp);
      var j :| 0 <= j < |b| && KeptAt(text, k, b, j);
      assert !UnsupportedAt(b, j, g);
    }
  }

  /** In an unidentified shell nothing chains: the whole command is one piece, with nothing that a shell may act on. */
  lemma NeutralIsOnePiece(command: string, shell: Shell)
    requires shell.grammar == Neutral && AutoAllowSegments(command, shell).Some?
    ensures AutoAllowSegments(command, shell) == Some([Trim(command)])
    ensures forall c :: c in Trim(command) ==> c !in "&|;`<>(){}$@%^!*?[]~\n\r"
  {
    hide Trim, Outside, SplitAt;
    var text := Trim(command);
    NothingBlanked(text);
    forall c | c in text ensures c !in "&|;`<>(){}$@%^!*?[]~\n\r" {
      var k :| 0 <= k < |text| && text[k] == c;
      assert !UnsupportedAt(text, k, Neutral);
    }
  }

  lemma {:induction false} NothingBlanked(s: string)
    ensures Blanked(s, false, false) == s
  {
    if s != "" {
      NothingBlanked(s[1..]);
      assert [s[0]] + s[1..] == s;
    }
  }

  /** What is split for the allowlist has closed quotes and no empty piece. */
  lemma SplitIsWhole(command: string, shell: Shell)
    requires AutoAllowSegments(command, shell).Some?
    ensures Outside(Trim(command), shell.grammar).Some? && "" !in AutoAllowSegments(command, shell).value
  {
    hide Trim, Outside, SplitAt, Blanked;
  }

  /** A command with closed quotes and nothing in it that a shell acts on, chains included, is one piece. */
  lemma QuietIsOnePiece(command: string, shell: Shell)
    requires shell.grammar != Neutral && Trim(command) != "" && Outside(Trim(command), shell.grammar).Some?
    requires forall k :: 0 <= k < |Trim(command)| ==> IsQuiet(Trim(command), k, shell.grammar)
    ensures AutoAllowSegments(command, shell) == Some([Trim(command)])
  {
    hide Trim, Outside;
    var text := Trim(command);
    TrimIdempotent(command);
    forall k | 0 <= k < |text| ensures text[k] != '&' && text[k] != ';' { assert IsQuiet(text, k, shell.grammar); }
    NothingToSplit(text, AdmitsSemicolon(shell), AdmitsDoubleAmp(shell));
    forall k | 0 <= k < |text| ensures !UnsupportedAt(text, k, shell.grammar) {
      assert IsQuiet(text, k, shell.grammar);
    }
    assert TrimAll([text]) == [text];
  }

  predicate IsQuiet(s: string, k: nat, g: Grammar)
    requires k < |s|
  {
    && !ShellActsOn(s[k], g) && s[k] != '&' && s[k] != ';'
    && !(g == Posix && s[k] == '$' && k + 1 < |s| && (s[k + 1] == '(' || s[k + 1] == '{'))
  }

  lemma {:induction false} NothingToSplit(s: string, semi: bool, amp: bool)
    requires forall k :: 0 <= k < |s| ==> s[k] != '&' && s[k] != ';'
    ensures SplitAt(s, semi, amp) == [s] && Blanked(s, semi, amp) == s
  {
    if s != "" {
      NothingToSplit(s[1..], semi, amp);
      assert [s[0]] + s[1..] == s;
    }
  }

  lemma AllowedIsRead(policy: Policy, command: string, shell: Shell, tables: Tables)
    requires policy.mode == Allowlist || policy.mode == Ask
    requires Check(policy, command, shell, tables).allowed
    ensures shell.grammar != Neutral && IsLiteral(Trim(command), shell, tables)
    ensures SilentlyAllowed(policy, Trim(command), shell, tables)
  {
    hide Trim, BoundedScan, SilentlyAllowed, Check;
    VerdictIs(policy, command, shell, tables);
  }

  /**
   * What is allowed: of a command that the scanner reads, with no piece cut by the splitter and nothing in it that a
   * shell may act on, the allowlist decides alone, segment by segment.
   */
  lemma AllowlistDecides(policy: Policy, command: string, shell: Shell, tables: Tables)
    requires shell.grammar != Neutral && ScanOf(Trim(command), shell).Some?
    requires "" !in AllowlistFor(policy, shell.grammar, tables)
    requires var amp := AdmitsDoubleAmp(shell);
      && NoPieceCut(Raw(Trim(command), shell.grammar), shell.grammar, amp)
      && !HasUnsupported(Blanked(Trim(command), AdmitsSemicolon(shell), amp), shell.grammar)
    ensures SilentlyAllowed(policy, Trim(command), shell, tables) <==>
        AllAllowlisted(Raw(Trim(command), shell.grammar), AllowlistFor(policy, shell.grammar, tables))
  {
    hide Trim, BoundedScan, SplitAt, SplitEach, InEach, AllAllowlisted, Raw, Outside, Blanked, HasUnsupported;
    hide AllowlistFor, EverySegmentIsAllowlisted, OutsideEach, AllClosed, AllCutOnlyQuoted, NoPieceCut, IsAllowlisted;
    var text, g := Trim(command), shell.grammar;
    var amp, allowlist := AdmitsDoubleAmp(shell), AllowlistFor(policy, g, tables);
    TrimIdempotent(command);
    ScannedOf(text, g, amp);
    SplitterAgrees(text, g, amp, START);
    NoCutEach(Raw(text, g), g, amp, allowlist);
    EachOfIff(Raw(text, g), allowlist);
    if "" in TrimAll(Raw(text, g)) { BlankIsNotCovered(TrimAll(Raw(text, g)), allowlist); }
    TextNotBlank(g, amp);
  }

  lemma BlankIsNotCovered(pieces: seq<string>, allowlist: set<string>)
    requires "" !in allowlist && "" in pieces
    ensures !EverySegmentIsAllowlisted(pieces, allowlist)
  {
    var k :| 0 <= k < |pieces| && pieces[k] == "";
    assert !IsAllowlisted(pieces[k], allowlist);
  }

  lemma TextNotBlank(g: Grammar, amp: bool)
    ensures BoundedScan("", g, amp) == None
  {
  }

  /** The splitter makes no cut inside these pieces. */
  predicate NoPieceCut(pieces: seq<string>, g: Grammar, amp: bool) {
    pieces != [] ==> |SplitAt(pieces[0], g != Cmd, amp)| == 1 && NoPieceCut(pieces[1..], g, amp)
  }

  lemma {:induction false} OneCut(s: string, semi: bool, amp: bool)
    requires |SplitAt(s, semi, amp)| == 1
    ensures SplitAt(s, semi, amp) == [s]
  {
    if s != "" {
      if !(amp && "&&" <= s) && !(semi && s[0] == ';') {
        OneCut(s[1..], semi, amp);
        assert [s[0]] + s[1..] == s;
      }
    }
  }

  lemma {:induction false} NoCutEach(pieces: seq<string>, g: Grammar, amp: bool, allowlist: set<string>)
    requires NoPieceCut(pieces, g, amp)
    ensures SplitEach(pieces, g != Cmd, amp) == pieces
  {
    hide SplitAt;
    if pieces != [] {
      OneCut(pieces[0], g != Cmd, amp);
      NoCutEach(pieces[1..], g, amp, allowlist);
      assert [pieces[0]] + pieces[1..] == pieces;
    }
  }

  lemma {:induction false} EachOfIff(pieces: seq<string>, allowlist: set<string>)
    ensures EverySegmentIsAllowlisted(TrimAll(pieces), allowlist) <==> AllAllowlisted(pieces, allowlist)
  {
    hide IsAllowlisted, Trim;
    if pieces != [] {
      assert TrimAll(pieces)[0] == Trim(pieces[0]);
      assert TrimAll(pieces)[1..] == TrimAll(pieces[1..]);
      EachOfIff(pieces[1..], allowlist);
      EveryCons(TrimAll(pieces), allowlist);
    }
  }

  lemma EveryCons(pieces: seq<string>, allowlist: set<string>)
    requires pieces != []
    ensures EverySegmentIsAllowlisted(pieces, allowlist)
       <==> IsAllowlisted(pieces[0], allowlist) && EverySegmentIsAllowlisted(pieces[1..], allowlist)
  {
    hide IsAllowlisted;
    if IsAllowlisted(pieces[0], allowlist) && EverySegmentIsAllowlisted(pieces[1..], allowlist) {
      forall k | 0 <= k < |pieces| ensures IsAllowlisted(pieces[k], allowlist) {
        if k > 0 { assert pieces[k] == pieces[1..][k - 1]; }
      }
    }
    if EverySegmentIsAllowlisted(pieces, allowlist) {
      forall k | 0 <= k < |pieces[1..]| ensures IsAllowlisted(pieces[1..][k], allowlist) {
        assert pieces[1..][k] == pieces[k + 1];
      }
    }
  }

  // ---------- an entry that leaves a quote open ----------

  const NO_TABLES := Tables(_ => false, _ => false, (_, _) => false, _ => false, (_, _) => false, _ => false)

  const QUOTE := "\""
  const QUOTED_SEMICOLON := "\";\""

  lemma QuotedSemicolonTrimmed()
    ensures Trim(QUOTED_SEMICOLON) == QUOTED_SEMICOLON && Trim(QUOTE) == QUOTE && Lower(QUOTE) == QUOTE
  {
  }

  lemma QuotedSemicolonScanned()
    ensures BoundedScan(QUOTED_SEMICOLON, Posix, true) == Some([[";"]])
        && Raw(QUOTED_SEMICOLON, Posix) == [QUOTED_SEMICOLON]
  {
    var s := QUOTED_SEMICOLON;
    assert s[1..] == ";\"" && s[1..][1..] == QUOTE && QUOTE[1..] == "" && s[3..] == "";
    assert ReadQuoted(QUOTE, '"', Posix) == Some(Quoted("", ""));
    assert [';'] + "" == ";";
    assert ReadQuoted(s[1..], '"', Posix) == Some(Quoted(";", ""));
    var st := State([], [], ";", true);
    assert Step(s, Posix, true, START) == Some(Move(st, 3));
    assert [] + [";"] == [";"] && [] + [[";"]] == [[";"]];
    assert Finish(st) == Some([[";"]]);
    assert Front(s, Posix) == s;
    assert Raw("", Posix) == [""] && s + "" == s;
  }

  lemma QuotedSemicolonSplit()
    ensures SplitAt(QUOTED_SEMICOLON, true, true) == [QUOTE, QUOTE] && Blanked(QUOTED_SEMICOLON, true, true) == "\" \""
    ensures Outside(QUOTED_SEMICOLON, Posix) == Some(" ")
  {
    var s := QUOTED_SEMICOLON;
    assert s[1..] == ";\"" && s[1..][1..] == QUOTE && QUOTE[1..] == "";
    assert QUOTE + "" == QUOTE && [QUOTE[0]] == QUOTE;
    assert SplitAt("", true, true) == [""];
    assert SplitAt(QUOTE, true, true) == Prepend(QUOTE, [""]) == [QUOTE];
    assert SplitAt(s[1..], true, true) == ["", QUOTE];
    assert Blanked(QUOTE, true, true) == QUOTE && Blanked(s[1..], true, true) == " \"";
    assert Outside("", Posix) == Some("") && " " + "" == " ";
    assert Inside(QUOTE, '"', Posix) == Some(" ");
    assert Inside(s[1..], '"', Posix) == Some(" ");
  }

  lemma QuotedSemicolonPieces()
    ensures AutoAllowSegments(QUOTED_SEMICOLON, Shell(PosixShell, Posix)) == Some([QUOTE, QUOTE])
  {
    hide Trim, SplitAt, Blanked, Outside;
    QuotedSemicolonTrimmed();
    QuotedSemicolonSplit();
    assert TrimAll([QUOTE, QUOTE]) == [QUOTE, QUOTE];
  }

  lemma QuoteAllowlist()
    ensures AllowlistFor(Policy(Allowlist, [QUOTE], []), Posix, NO_TABLES) == {QUOTE}
  {
  }

  /**
   * The entry `"` leaves a quote open, and so allows `";"`, whose one segment it is not and does not begin with a
   * space behind.
   */
  lemma OpenEntryMisleads()
    ensures var policy, shell := Policy(Allowlist, [QUOTE], []), Shell(PosixShell, Posix);
      && Check(policy, QUOTED_SEMICOLON, shell, NO_TABLES).allowed
      && !AllAllowlisted(Raw(Trim(QUOTED_SEMICOLON), Posix), AllowlistFor(policy, Posix, NO_TABLES))
  {
    hide Trim, BoundedScan, AutoAllowSegments, AllowlistFor, Raw, Lower;
    QuotedSemicolonTrimmed();
    QuotedSemicolonScanned();
    QuotedSemicolonPieces();
    QuoteAllowlist();
    LowerLengths(QUOTED_SEMICOLON, QUOTE);
    assert Lower(QUOTED_SEMICOLON)[1] == ';' by { LowerSemicolon(); }
    assert IsAllowlisted(QUOTE, {QUOTE});
  }

  lemma LowerSemicolon()
    ensures Lower(QUOTED_SEMICOLON)[1] == ';'
  {
  }

  lemma ScannedOf(text: string, g: Grammar, amp: bool)
    requires BoundedScan(text, g, amp).Some?
    ensures Scan(text, g, amp, START).Some?
  {
  }

  // ---------- monotonicity ----------

  function Rank(mode: Mode): nat {
    match mode
    case Off => 0
    case Allowlist => 1
    case Ask => 2
    case All => 3
  }

  /**
   * Raising the mode or adding allowlisted templates never refuses a command that was allowed.
   */
  lemma CheckIsMonotone(lower: Policy, higher: Policy, command: string, shell: Shell, tables: Tables)
    requires Rank(lower.mode) <= Rank(higher.mode)
    requires AllowlistFor(lower, shell.grammar, tables) <= AllowlistFor(higher, shell.grammar, tables)
    requires Check(lower, command, shell, tables).allowed
    ensures Check(higher, command, shell, tables).allowed
  {
    hide Trim, Inspect, AutoAllowSegments, AllowlistFor;
    var pieces := AutoAllowSegments(Trim(command), shell);
    if pieces.Some? {
      AllowlistGrows(pieces.value, AllowlistFor(lower, shell.grammar, tables),
          AllowlistFor(higher, shell.grammar, tables));
    }
  }

  lemma AllowlistGrows(pieces: seq<string>, smaller: set<string>, larger: set<string>)
    requires smaller <= larger
    ensures EverySegmentIsAllowlisted(pieces, smaller) ==> EverySegmentIsAllowlisted(pieces, larger)
  {
    hide Matches;
  }
}
