/**
 * What the diff interpreter does with any diff, and with diffs printed in the unified format from a known change: when
 * the printed diff turns the old text into the new one, and when its inverse turns it back.
 */
module PrintedDiff {
  import opened Basics
  import opened TextLines
  import opened EditScripts
  import opened UnifiedDiff

  // ---------- every diff: the hunks it is read as ----------

  datatype Body = Body(edits: seq<Edit>, noFinalNewline: bool, rest: seq<string>)
  datatype ParsedDiff = ParsedDiff(hunks: seq<Hunk>, noFinalNewline: bool)

  function ParseBody(lines: seq<string>): (r: Option<Body>)
    ensures r.Some? ==> |r.value.rest| <= |lines|
  {
    if lines == [] || StartsWith(lines[0], "@@ ") then Some(Body([], false, lines))
    else WithLine(ReadBodyLine(lines[0], |lines| == 1), ParseBody(lines[1..]))
  }

  function WithLine(line: BodyLine, more: Option<Body>): Option<Body> {
    if more == None then None
    else
      match line
      case Skipped => more
      case NoFinalNewline => Some(more.value.(noFinalNewline := true))
      case Unsupported => None
      case Change(e) => Some(more.value.(edits := [e] + more.value.edits))
  }

  function ParseDiff(lines: seq<string>): Option<ParsedDiff>
    decreases |lines|, 0
  {
    if lines == [] then Some(ParsedDiff([], false))
    else
      match ReadHeader(lines[0])
      case None => ParseDiff(lines[1..])
      case Some(oldStart) => WithHunk(HunkStart(oldStart), ParseBody(lines[1..]))
  }

  function WithHunk(start: nat, body: Option<Body>): Option<ParsedDiff>
    decreases if body.Some? then |body.value.rest| else 0, 1
  {
    if body == None then None
    else
      match ParseDiff(body.value.rest)
      case None => None
      case Some(d) =>
        Some(ParsedDiff([Hunk(start, body.value.edits)] + d.hunks, body.value.noFinalNewline || d.noFinalNewline))
  }

  lemma ParseBodyAt(lines: seq<string>, i: nat)
    requires i <= |lines|
    ensures ParseBody(lines[i..]) ==
      if i == |lines| || StartsWith(lines[i], "@@ ") then Some(Body([], false, lines[i..]))
      else WithLine(ReadBodyLine(lines[i], i == |lines| - 1), ParseBody(lines[i + 1..]))
  {
    if i < |lines| {
      assert lines[i..][1..] == lines[i + 1..];
    }
  }

  lemma ParseDiffAt(lines: seq<string>, i: nat)
    requires i < |lines|
    ensures ReadHeader(lines[i]) == None ==> ParseDiff(lines[i..]) == ParseDiff(lines[i + 1..])
    ensures ReadHeader(lines[i]).Some? ==>
      ParseDiff(lines[i..]) == WithHunk(HunkStart(ReadHeader(lines[i]).value), ParseBody(lines[i + 1..]))
  {
    assert lines[i..][1..] == lines[i + 1..];
  }

  ghost predicate MatchesAt(source: seq<string>, at: nat, lines: seq<string>) {
    at + |lines| <= |source| && source[at..at + |lines|] == lines
  }

  lemma MatchesAtStep(source: seq<string>, at: nat, line: string, more: seq<string>)
    ensures MatchesAt(source, at, [line] + more)
       <==> at < |source| && source[at] == line && MatchesAt(source, at + 1, more)
  {
    if MatchesAt(source, at, [line] + more) {
      assert source[at] == source[at..at + 1 + |more|][0];
      assert source[at + 1..at + 1 + |more|] == source[at..at + 1 + |more|][1..];
    }
    if at < |source| && source[at] == line && MatchesAt(source, at + 1, more) {
      assert source[at..at + 1 + |more|] == [source[at]] + source[at + 1..at + 1 + |more|];
    }
  }

  /** An interpreted body `r` and a parsed one `p` say the same of the source at the cursor. */
  ghost predicate BodyAgrees(source: seq<string>, lines: seq<string>, cur: Cursor,
      r: Result<(Cursor, nat), DiffError>, p: Option<Body>)
  {
    && (r.Ok? <==> p.Some? && MatchesAt(source, cur.at, OldSide(p.value.edits)))
    && (r.Ok? ==>
          && r.value.0 == Cursor(cur.output + NewSide(p.value.edits), cur.at + |OldSide(p.value.edits)|,
                                 cur.noFinalNewline || p.value.noFinalNewline)
          && r.value.1 <= |lines| && lines[r.value.1..] == p.value.rest)
  }

  lemma ChangeAgrees(source: seq<string>, lines: seq<string>, cur: Cursor, e: Edit,
      r: Result<(Cursor, nat), DiffError>, more: Option<Body>)
    requires ApplyEdit(source, cur, e).Ok? ==> BodyAgrees(source, lines, ApplyEdit(source, cur, e).value, r, more)
    ensures BodyAgrees(source, lines, cur, if ApplyEdit(source, cur, e).Ok? then r else Err(ContextMismatch),
        WithLine(Change(e), more))
  {
    hide MatchesAt, OldSide, NewSide;
    if more.Some? {
      EditsStep(e, more.value.edits);
      MatchesAtStep(source, cur.at, e.line, OldSide(more.value.edits));
    }
  }

  /** A body applies exactly when every line of it is understood and its old side stands at the cursor. */
  lemma {:induction false} BodyMeaning(source: seq<string>, lines: seq<string>, i: nat, cur: Cursor)
    requires i <= |lines| && cur.at <= |source|
    ensures BodyAgrees(source, lines, cur, ApplyBody(source, lines, i, cur), ParseBody(lines[i..]))
    decreases |lines| - i
  {
    hide ReadBodyLine, StartsWith, MatchesAt, ParseBody, OldSide, NewSide, ApplyEdit;
    ParseBodyAt(lines, i);
    if i == |lines| || StartsWith(lines[i], "@@ ") {
      MatchesNone(source, cur.at);
      SidesOfNone();
    } else {
      hide BodyAgrees;
      match ReadBodyLine(lines[i], i == |lines| - 1)
      case Skipped => BodyMeaning(source, lines, i + 1, cur);
      case NoFinalNewline =>
        BodyMeaning(source, lines, i + 1, cur.(noFinalNewline := true));
        MarkerAgrees(source, lines, cur, ApplyBody(source, lines, i, cur), ParseBody(lines[i + 1..]));
      case Unsupported => NothingAgrees(source, lines, cur, UnsupportedLine);
      case Change(e) =>
        var r := ApplyEdit(source, cur, e);
        if r.Ok? {
          BodyMeaning(source, lines, i + 1, r.value);
          ChangeAgrees(source, lines, cur, e, ApplyBody(source, lines, i + 1, r.value), ParseBody(lines[i + 1..]));
        } else {
          ChangeAgrees(source, lines, cur, e, Err(ContextMismatch), ParseBody(lines[i + 1..]));
          assert r == Err(ContextMismatch) by { EditFails(source, cur, e); }
        }
    }
  }

  lemma EditFails(source: seq<string>, cur: Cursor, e: Edit)
    ensures ApplyEdit(source, cur, e).Err? ==> ApplyEdit(source, cur, e) == Err(ContextMismatch)
  {
  }

  lemma NothingAgrees(source: seq<string>, lines: seq<string>, cur: Cursor, x: DiffError)
    ensures BodyAgrees(source, lines, cur, Err(x), None)
  {
  }

  lemma MarkerAgrees(source: seq<string>, lines: seq<string>, cur: Cursor, r: Result<(Cursor, nat), DiffError>,
      more: Option<Body>)
    requires BodyAgrees(source, lines, cur.(noFinalNewline := true), r, more)
    ensures BodyAgrees(source, lines, cur, r, WithLine(NoFinalNewline, more))
  {
  }

  lemma SidesOfNone()
    ensures OldSide([]) == [] && NewSide([]) == []
  {
  }

  lemma MatchesNone(source: seq<string>, at: nat)
    requires at <= |source|
    ensures MatchesAt(source, at, [])
  {
  }

  lemma EditsStep(e: Edit, more: seq<Edit>)
    ensures OldSide([e] + more) == (if e.Add? then OldSide(more) else [e.line] + OldSide(more))
    ensures NewSide([e] + more) == (if e.Drop? then NewSide(more) else [e.line] + NewSide(more))
  {
    assert ([e] + more)[1..] == more;
  }

  /** A diff applies exactly when it is understood, holds a hunk, and its hunks fit the source in order. */
  lemma {:induction false} HunksMeaning(source: seq<string>, lines: seq<string>, i: nat, cur: Cursor, sawHunk: bool)
    requires i <= |lines| && cur.at <= |source|
    ensures var r := ApplyHunks(source, lines, i, cur, sawHunk);
      var d := ParseDiff(lines[i..]);
      && (r.Ok? <==>
            d.Some? && (sawHunk || d.value.hunks != []) && Patch(source[cur.at..], cur.at, d.value.hunks).Some?)
      && (r.Ok? ==>
            && r.value.output == cur.output + Patch(source[cur.at..], cur.at, d.value.hunks).value
            && r.value.noFinalNewline == (cur.noFinalNewline || d.value.noFinalNewline))
    decreases |lines| - i
  {
    hide ReadHeader, ApplyBody, ParseBody, ParseDiff, Patch, OldSide, NewSide;
    if i == |lines| {
      assert lines[i..] == [];
      NoHunks(source[cur.at..], cur.at);
    } else {
      var header := ReadHeader(lines[i]);
      ParseDiffAt(lines, i);
      if header == None {
        HunksMeaning(source, lines, i + 1, cur, sawHunk);
      } else {
        var start := HunkStart(header.value);
        var body := ParseBody(lines[i + 1..]);
        if cur.at <= start <= |source| {
          var placed := Cursor(cur.output + source[cur.at..start], start, cur.noFinalNewline);
          BodyMeaning(source, lines, i + 1, placed);
          var r := ApplyBody(source, lines, i + 1, placed);
          if r.Ok? {
            HunksMeaning(source, lines, r.value.1, r.value.0, true);
          }
        }
        if body.Some? && ParseDiff(body.value.rest).Some? {
          PatchStep(source, cur.at, Hunk(start, body.value.edits), ParseDiff(body.value.rest).value.hunks);
        }
      }
    }
  }

  lemma NoHunks(lines: seq<string>, at: nat)
    ensures ParseDiff([]) == Some(ParsedDiff([], false)) && Patch(lines, at, []) == Some(lines)
  {
  }

  lemma PatchStep(source: seq<string>, at: nat, h: Hunk, more: seq<Hunk>)
    requires at <= |source|
    ensures var end := h.start + |OldSide(h.edits)|;
      Patch(source[at..], at, [h] + more) ==
        if at <= h.start && MatchesAt(source, h.start, OldSide(h.edits)) && Patch(source[end..], end, more).Some?
        then Some(source[at..h.start] + NewSide(h.edits) + Patch(source[end..], end, more).value)
        else None
  {
    hide Patch, OldSide, NewSide, MatchesAt;
    var gone := OldSide(h.edits);
    if at <= h.start && MatchesAt(source, h.start, gone) {
      MatchSplits(source, at, h.start, gone);
      PatchHunk(source[at..h.start], source[h.start + |gone|..], at, h, more);
    } else {
      NotBehind(source, at, h.start, gone);
      PatchMisses(source[at..], at, h, more);
    }
  }

  lemma MatchSplits(source: seq<string>, at: nat, start: nat, gone: seq<string>)
    requires at <= start && MatchesAt(source, start, gone)
    ensures start + |gone| <= |source|
    ensures source[at..] == source[at..start] + gone + source[start + |gone|..]
  {
    ThreeWays(source, at, start, start + |gone|);
  }

  lemma ThreeWays(source: seq<string>, a: nat, b: nat, c: nat)
    requires a <= b <= c <= |source|
    ensures source[a..] == source[a..b] + source[b..c] + source[c..]
  {
  }

  lemma NotBehind(source: seq<string>, at: nat, start: nat, gone: seq<string>)
    requires at <= |source| && !(at <= start && MatchesAt(source, start, gone))
    ensures start < at || start - at > |source[at..]| || !(gone <= source[at..][start - at..])
  {
    if at <= start <= |source| {
      var behind := source[at..][start - at..];
      assert behind == source[start..];
      assert |gone| <= |behind| ==> behind[..|gone|] == source[start..start + |gone|];
    }
  }

  lemma PatchMisses(lines: seq<string>, at: nat, h: Hunk, more: seq<Hunk>)
    requires h.start < at || h.start - at > |lines| || !(OldSide(h.edits) <= lines[h.start - at..])
    ensures Patch(lines, at, [h] + more) == None
  {
  }

  /** Every text and every diff: when the diff applies, and the lines it then writes. */
  lemma AppliedMeaning(before: string, diff: string)
    ensures var source := SourceLines(before);
      var d := ParseDiff(Split(NormalizeNewlines(diff)));
      && (Applied(before, diff).Ok? <==> d.Some? && d.value.hunks != [] && Patch(source, 0, d.value.hunks).Some?)
      && (Applied(before, diff).Ok? ==>
            Applied(before, diff).value
              == (if d.value.noFinalNewline then Join(Patch(source, 0, d.value.hunks).value)
                  else Join(Patch(source, 0, d.value.hunks).value) + "\n"))
  {
    hide Split, NormalizeNewlines, SourceLines, ApplyHunks, ParseDiff, Patch, Join;
    assert forall ls: seq<string> :: [] + ls == ls;
    var lines := Split(NormalizeNewlines(diff));
    assert lines[0..] == lines;
    HunksMeaning(SourceLines(before), lines, 0, Cursor([], 0, false), false);
  }

  /**
   * Soundness of every successful application: the source is untouched lines and the hunks' old sides in order, each at
   * the position its header names, and what is written keeps every untouched line and puts each new side in place.
   */
  lemma AppliedIsSound(before: string, diff: string)
    requires Applied(before, diff).Ok?
    ensures exists hunks, parts, rest ::
      && ParseDiff(Split(NormalizeNewlines(diff))).Some?
      && ParseDiff(Split(NormalizeNewlines(diff))).value.hunks == hunks != []
      && Explains(SourceLines(before), 0, hunks, parts, rest)
      && Applied(before, diff).value
           == (if ParseDiff(Split(NormalizeNewlines(diff))).value.noFinalNewline then Join(NewOf(parts) + rest)
               else Join(NewOf(parts) + rest) + "\n")
  {
    hide Split, NormalizeNewlines, SourceLines, Applied, ParseDiff, Patch, Join, Placed;
    AppliedMeaning(before, diff);
    var hunks := ParseDiff(Split(NormalizeNewlines(diff))).value.hunks;
    var parts, rest := PatchedIsExplained(SourceLines(before), 0, hunks);
    PlacedIsPatched(0, hunks, parts, rest);
    assert Explains(SourceLines(before), 0, hunks, parts, rest);
  }

  // ---------- the unified format, printed ----------

  function Digits(n: nat): (s: string)
    ensures s != ""
    ensures forall c <- s :: IsDigit(c)
  {
    var d := ['0' + (n % 10) as char];
    if n < 10 then d else Digits(n / 10) + d
  }

  lemma {:induction false} NumberOfDigits(n: nat)
    ensures Number(Digits(n)) == n
  {
    var d := '0' + (n % 10) as char;
    if n < 10 {
      assert Digits(n)[..0] == "";
    } else {
      NumberOfDigits(n / 10);
      assert Digits(n)[..|Digits(n)| - 1] == Digits(n / 10);
    }
  }

  /** How hunk headers are printed: whether a count of one is left out, and what stands behind the ranges. */
  datatype Format = Format(short: bool, section: string)

  function CountText(f: Format, count: nat): string {
    if f.short && count == 1 then "" else "," + Digits(count)
  }

  function Header(f: Format, oldStart: nat, oldCount: nat, newStart: nat, newCount: nat): string {
    "@@ -" + Digits(oldStart) + CountText(f, oldCount) + " +" + Digits(newStart) + CountText(f, newCount)
    + " @@" + f.section
  }

  lemma {:induction false} DigitRunOf(d: string, rest: string)
    requires forall c <- d :: IsDigit(c)
    requires rest == "" || !IsDigit(rest[0])
    ensures DigitRun(d + rest) == |d|
  {
    if d == "" {
      assert d + rest == rest;
    } else {
      assert d[0] in d;
      assert (d + rest)[1..] == d[1..] + rest;
      DigitRunOf(d[1..], rest);
    }
  }

  predicate IsNumber(s: string) { s != "" && forall c <- s :: IsDigit(c) }

  /** A comma and a number, or nothing. */
  predicate IsCount(s: string) { s == "" || (s[0] == ',' && IsNumber(s[1..])) }

  lemma ReadRangeOf(a: string, count: string, rest: string)
    requires IsNumber(a) && IsCount(count) && rest != "" && !IsDigit(rest[0]) && rest[0] != ','
    ensures ReadRange(a + (count + rest)) == Some((Number(a), rest))
  {
    hide ReadRange, Number, IsDigit;
    if count == "" {
      assert count + rest == rest;
      ReadStart(a, rest);
    } else {
      var c := count[1..];
      assert count + rest == "," + (c + rest);
      ReadStartAndCount(a, c, rest);
    }
  }

  lemma ReadStart(a: string, rest: string)
    requires IsNumber(a) && rest != "" && !IsDigit(rest[0]) && rest[0] != ','
    ensures ReadRange(a + rest) == Some((Number(a), rest))
  {
    hide DigitRun, Number, StartsWith;
    DigitRunOf(a, rest);
    PrefixOf(a, rest);
    NoComma(rest);
  }

  lemma ReadStartAndCount(a: string, c: string, rest: string)
    requires IsNumber(a) && IsNumber(c) && rest != "" && !IsDigit(rest[0])
    ensures ReadRange(a + ("," + (c + rest))) == Some((Number(a), rest))
  {
    hide DigitRun, Number, StartsWith;
    DigitRunOf(a, "," + (c + rest));
    PrefixOf(a, "," + (c + rest));
    PrefixOf(",", c + rest);
    DigitRunOf(c, rest);
    PrefixOf(c, rest);
  }

  lemma NoComma(rest: string)
    requires rest != "" && rest[0] != ','
    ensures !StartsWith(rest, ",")
  {
  }

  lemma ReadRangeIs(s: string)
    requires ReadRange(s).Some?
    ensures exists a, count :: IsNumber(a) && IsCount(count) && s == a + (count + ReadRange(s).value.1)
                               && ReadRange(s).value.0 == Number(a)
  {
    hide DigitRun, Number, IsNumber, IsCount;
    var d := DigitRun(s);
    var a, rest, behind := s[..d], s[d..], ReadRange(s).value.1;
    RunIsNumber(s);
    if StartsWith(rest, ",") && DigitRun(rest[1..]) > 0 {
      CountInFront(rest);
      var count := "," + rest[1..][..DigitRun(rest[1..])];
      assert s == a + (count + behind);
    } else {
      NoCount();
      assert s == a + ("" + behind);
    }
  }

  lemma RunIsNumber(s: string)
    requires DigitRun(s) > 0
    ensures IsNumber(s[..DigitRun(s)])
  {
  }

  lemma NoCount()
    ensures IsCount("")
  {
  }

  lemma CountInFront(rest: string)
    requires StartsWith(rest, ",") && DigitRun(rest[1..]) > 0
    ensures var count := "," + rest[1..][..DigitRun(rest[1..])];
      IsCount(count) && rest == count + rest[1..][DigitRun(rest[1..])..]
  {
    hide DigitRun, IsNumber;
    var c := rest[1..][..DigitRun(rest[1..])];
    RunIsNumber(rest[1..]);
    assert ("," + c)[1..] == c && rest[0] == ',';
    assert rest == [rest[0]] + rest[1..];
  }

  /** What a hunk header looks like: two ranges of a start and perhaps a count, and anything behind them. */
  ghost predicate IsHeader(line: string, a: string, ca: string, b: string, cb: string, section: string) {
    && IsNumber(a) && IsCount(ca) && IsNumber(b) && IsCount(cb)
    && line == "@@ -" + (a + (ca + (" +" + (b + (cb + (" @@" + section))))))
  }

  lemma HeaderReads(line: string, a: string, ca: string, b: string, cb: string, section: string)
    requires IsHeader(line, a, ca, b, cb, section)
    ensures ReadHeader(line) == Some(Number(a)) && StartsWith(line, "@@ ")
  {
    hide ReadRange, Number, IsNumber, IsCount;
    var end := " @@" + section;
    var tail := b + (cb + end);
    var body := a + (ca + (" +" + tail));
    PrefixOf("@@ -", body);
    assert line[..3] == "@@ ";
    ReadRangeOf(a, ca, " +" + tail);
    PrefixOf(" +", tail);
    ReadRangeOf(b, cb, end);
    PrefixOf(" @@", section);
  }

  /** A line begins a hunk if and only if it has the form of a header, and then the first number is the old start. */
  lemma ReadHeaderIff(line: string)
    ensures ReadHeader(line).Some? <==> exists a, ca, b, cb, section :: IsHeader(line, a, ca, b, cb, section)
    ensures forall a, ca, b, cb, section ::
        IsHeader(line, a, ca, b, cb, section) ==> ReadHeader(line) == Some(Number(a))
  {
    hide ReadRange, Number, IsCount;
    forall a, ca, b, cb, section | IsHeader(line, a, ca, b, cb, section) ensures ReadHeader(line) == Some(Number(a)) {
      HeaderReads(line, a, ca, b, cb, section);
    }
    if ReadHeader(line).Some? {
      var rest := ReadRange(line[4..]).value.1;
      var end := ReadRange(rest[2..]).value.1;
      ReadRangeIs(line[4..]);
      ReadRangeIs(rest[2..]);
      var a, ca :| IsNumber(a) && IsCount(ca) && line[4..] == a + (ca + rest);
      var b, cb :| IsNumber(b) && IsCount(cb) && rest[2..] == b + (cb + end);
      assert line == "@@ -" + line[4..] && rest == " +" + rest[2..] && end == " @@" + end[3..];
      assert IsHeader(line, a, ca, b, cb, end[3..]);
    }
  }

  lemma PrefixOf(a: string, b: string)
    ensures StartsWith(a + b, a) && (a + b)[..|a|] == a && (a + b)[|a|..] == b
  {
  }

  /** A printed header reads back as its old start: with or without counts of one, and whatever stands behind. */
  lemma ReadHeaderOf(f: Format, oldStart: nat, oldCount: nat, newStart: nat, newCount: nat)
    ensures ReadHeader(Header(f, oldStart, oldCount, newStart, newCount)) == Some(oldStart)
    ensures StartsWith(Header(f, oldStart, oldCount, newStart, newCount), "@@ ")
  {
    hide ReadHeader, Digits, StartsWith, CountText;
    var line := Header(f, oldStart, oldCount, newStart, newCount);
    CountTextIs(f, oldCount);
    CountTextIs(f, newCount);
    NumberOfDigits(oldStart);
    var a, ca, b, cb := Digits(oldStart), CountText(f, oldCount), Digits(newStart), CountText(f, newCount);
    assert line == "@@ -" + (a + (ca + (" +" + (b + (cb + (" @@" + f.section))))));
    HeaderReads(line, a, ca, b, cb, f.section);
  }

  lemma CountTextIs(f: Format, count: nat)
    ensures IsCount(CountText(f, count))
  {
    hide Digits;
    assert ("," + Digits(count))[1..] == Digits(count);
  }

  lemma HeaderPlain(f: Format, oldStart: nat, oldCount: nat, newStart: nat, newCount: nat)
    requires Plain(f.section)
    ensures Plain(Header(f, oldStart, oldCount, newStart, newCount))
  {
    hide Digits, CountText;
    var line := Header(f, oldStart, oldCount, newStart, newCount);
    NumbersPlain(f, oldStart, oldCount);
    NumbersPlain(f, newStart, newCount);
    assert line[|line| - 1] == if f.section == "" then '@' else f.section[|f.section| - 1];
  }

  lemma NumbersPlain(f: Format, start: nat, count: nat)
    ensures '\n' !in Digits(start) && '\n' !in CountText(f, count)
  {
    hide Digits;
    assert forall c <- Digits(start) :: IsDigit(c);
    assert forall c <- Digits(count) :: IsDigit(c);
  }

  function PrintEdit(e: Edit): string {
    (if e.Keep? then " " else if e.Drop? then "-" else "+") + e.line
  }

  function PrintEdits(es: seq<Edit>): seq<string> {
    if es == [] then [] else [PrintEdit(es[0])] + PrintEdits(es[1..])
  }

  /** A range names its first line, or for no lines the line in front of it. */
  function RangeStart(before: nat, count: nat): nat { if count == 0 then before else before + 1 }

  /** The hunks, with `oldAt` old lines and `newAt` new lines in front of them. */
  function PrintParts(f: Format, parts: seq<Part>, oldAt: nat, newAt: nat): seq<string> {
    if parts == [] then []
    else
      var p := parts[0];
      var o, n := oldAt + |p.gap|, newAt + |p.gap|;
      var oc, nc := |OldSide(p.edits)|, |NewSide(p.edits)|;
      [Header(f, RangeStart(o, oc), oc, RangeStart(n, nc), nc)] + PrintEdits(p.edits)
          + PrintParts(f, parts[1..], o + oc, n + nc)
  }

  function DiffText(f: Format, parts: seq<Part>): string { TextOf(PrintParts(f, parts, 0, 0)) }

  // ---------- reading a printed diff back ----------

  /** A changed line whose printed form reads as a file header, so the interpreter passes over it. */
  predicate Hidden(e: Edit) {
    (e.Drop? && StartsWith(e.line, "-- ")) || (e.Add? && StartsWith(e.line, "++ "))
  }

  function Visible(es: seq<Edit>): seq<Edit> {
    if es == [] then [] else (if Hidden(es[0]) then [] else [es[0]]) + Visible(es[1..])
  }

  /** The hunks as the interpreter reads them back: it takes a start for one past the position, whatever the count. */
  function ReadBack(parts: seq<Part>, oldAt: nat): seq<Hunk> {
    if parts == [] then []
    else
      var p := parts[0];
      var o, oc := oldAt + |p.gap|, |OldSide(p.edits)|;
      [Hunk(HunkStart(RangeStart(o, oc)), Visible(p.edits))] + ReadBack(parts[1..], o + oc)
  }

  lemma PrintedEditReads(e: Edit, last: bool)
    ensures !StartsWith(PrintEdit(e), "@@ ")
    ensures ReadBodyLine(PrintEdit(e), last) == if Hidden(e) then Skipped else Change(e)
  {
    var line := PrintEdit(e);
    assert line[1..] == e.line && line[0] != '@' && line[0] != '\\';
    PrefixAfter(line, '-', "-- ");
    PrefixAfter(line, '+', "++ ");
    assert "--- " == ['-'] + "-- " && "+++ " == ['+'] + "++ ";
  }

  lemma PrefixAfter(line: string, c: char, prefix: string)
    requires line != ""
    ensures StartsWith(line, [c] + prefix) <==> line[0] == c && StartsWith(line[1..], prefix)
  {
    var n := |prefix|;
    if StartsWith(line, [c] + prefix) {
      assert line[1..][..n] == line[..n + 1][1..] == prefix;
    }
    if line[0] == c && StartsWith(line[1..], prefix) {
      assert line[..n + 1] == [line[0]] + line[1..][..n];
    }
  }

  /** What may follow a printed body: the next header, or the empty line behind the last newline. */
  ghost predicate EndsBody(tail: seq<string>) {
    tail == [""] || (tail != [] && StartsWith(tail[0], "@@ "))
  }

  lemma {:induction false} ParsePrintedBody(es: seq<Edit>, tail: seq<string>)
    requires EndsBody(tail)
    ensures ParseBody(PrintEdits(es) + tail) == Some(Body(Visible(es), false, if tail == [""] then [] else tail))
  {
    hide ReadBodyLine, Hidden, PrintEdit;
    if es == [] {
      assert PrintEdits(es) + tail == tail;
      if tail == [""] {
        LastEmptyLine();
        assert tail[1..] == [];
      }
    } else {
      var lines := PrintEdits(es) + tail;
      assert lines[0] == PrintEdit(es[0]) && lines[1..] == PrintEdits(es[1..]) + tail;
      PrintedEditReads(es[0], |lines| == 1);
      assert [] + Visible(es[1..]) == Visible(es[1..]);
      ParsePrintedBody(es[1..], tail);
    }
  }

  lemma LastEmptyLine()
    ensures ReadBodyLine("", true) == Skipped && !StartsWith("", "@@ ")
    ensures ReadHeader("") == None
  {
  }

  lemma {:induction false} ParsePrinted(f: Format, parts: seq<Part>, oldAt: nat, newAt: nat)
    ensures ParseDiff(PrintParts(f, parts, oldAt, newAt) + [""]) == Some(ParsedDiff(ReadBack(parts, oldAt), false))
  {
    hide ReadHeader, ParseBody, ParseDiff, Header, Visible, StartsWith, OldSide, NewSide, EndsBody, PrintEdits;
    ParseDiffEnds();
    if parts == [] {
      assert PrintParts(f, parts, oldAt, newAt) + [""] == [""];
    } else {
      var p := parts[0];
      var o, n := oldAt + |p.gap|, newAt + |p.gap|;
      var oc, nc := |OldSide(p.edits)|, |NewSide(p.edits)|;
      var start := RangeStart(o, oc);
      var header := Header(f, start, oc, RangeStart(n, nc), nc);
      var more := PrintParts(f, parts[1..], o + oc, n + nc) + [""];
      assert PrintParts(f, parts, oldAt, newAt) + [""] == [header] + (PrintEdits(p.edits) + more);
      ReadHeaderOf(f, start, oc, RangeStart(n, nc), nc);
      ParseDiffStep(header, start, PrintEdits(p.edits) + more);
      PrintedEndsBody(f, parts[1..], o + oc, n + nc);
      ParsePrintedBody(p.edits, more);
      ParsePrinted(f, parts[1..], o + oc, n + nc);
    }
  }

  lemma ParseDiffEnds()
    ensures ParseDiff([]) == Some(ParsedDiff([], false)) == ParseDiff([""])
  {
    LastEmptyLine();
    assert [""][1..] == [];
  }

  lemma ParseDiffStep(header: string, start: nat, tail: seq<string>)
    requires ReadHeader(header) == Some(start)
    ensures ParseDiff([header] + tail) == WithHunk(HunkStart(start), ParseBody(tail))
  {
    assert ([header] + tail)[1..] == tail;
  }

  lemma PrintedEndsBody(f: Format, parts: seq<Part>, oldAt: nat, newAt: nat)
    ensures EndsBody(PrintParts(f, parts, oldAt, newAt) + [""])
  {
    if parts != [] {
      var p := parts[0];
      var o, n := oldAt + |p.gap|, newAt + |p.gap|;
      var oc, nc := |OldSide(p.edits)|, |NewSide(p.edits)|;
      ReadHeaderOf(f, RangeStart(o, oc), oc, RangeStart(n, nc), nc);
    }
  }

  // ---------- when a printed diff does what it says ----------

  ghost predicate AllVisible(parts: seq<Part>) {
    parts != [] ==> (forall e <- parts[0].edits :: !Hidden(e)) && AllVisible(parts[1..])
  }

  predicate CopiesOf(lines: seq<string>, x: string) { forall l <- lines :: l == x }

  /**
   * Every hunk lands where it was printed for. A hunk with an old line does, and so does one at the very beginning. Any
   * other hunk only adds lines; it is read one position early, in front of the old line it was printed behind, and is
   * harmless only when that line is still unread and every added line is a copy of it. `unread` is the old line that
   * the hunk in front left unread in this way, if it did.
   */
  predicate Anchored(unread: seq<string>, at: nat, parts: seq<Part>)
    decreases |parts|
  {
    if parts == [] then true
    else
      var p := parts[0];
      var ahead := unread + p.gap;
      var o := at + |p.gap|;
      if OldSide(p.edits) != [] || o == 0 then Anchored([], o + |OldSide(p.edits)|, parts[1..])
      else
        && ahead != []
        && CopiesOf(NewSide(p.edits), ahead[|ahead| - 1])
        && Anchored([ahead[|ahead| - 1]], o, parts[1..])
  }

  lemma {:induction false} VisibleAll(es: seq<Edit>)
    requires forall e <- es :: !Hidden(e)
    ensures Visible(es) == es
  {
    if es != [] {
      assert es[0] in es;
      VisibleAll(es[1..]);
    }
  }

  /** Lines in front of a copied line can be exchanged with it only when they are copies themselves. */
  lemma Rotates(added: seq<string>, x: string, next: seq<string>, rest: seq<string>)
    ensures added + next == [x] + added + rest <==> CopiesOf(added, x) && next == [x] + rest
  {
    var left, right := added + next, [x] + added + rest;
    if left == right {
      AllCopies(added, x, next, rest, |added|);
      assert next == left[|added|..];
      assert right[|added|..] == [right[|added|]] + rest;
    }
    if CopiesOf(added, x) && next == [x] + rest {
      assert forall k :: 0 <= k < |added| ==> added[k] in added;
      assert added + [x] == [x] + added;
      assert left == added + [x] + rest;
    }
  }

  lemma {:induction false} AllCopies(added: seq<string>, x: string, next: seq<string>, rest: seq<string>, k: nat)
    requires added + next == [x] + added + rest && k <= |added|
    ensures forall j :: 0 <= j < k ==> added[j] == x
    ensures ([x] + added + rest)[k] == x
  {
    if k > 0 {
      AllCopies(added, x, next, rest, k - 1);
      assert added[k - 1] == (added + next)[k - 1];
      assert ([x] + added + rest)[k] == added[k - 1];
    }
  }

  lemma SamePrefix(a: seq<string>, b: seq<string>, c: seq<string>)
    ensures a + b == a + c <==> b == c
  {
    if a + b == a + c {
      assert b == (a + b)[|a|..] == (a + c)[|a|..] == c;
    }
  }

  /** The hunks as read back, applied to the unread line and the old side, give that line and the new side. */
  ghost predicate Lands(unread: seq<string>, at: nat, parts: seq<Part>, rest: seq<string>)
    requires |unread| <= at
  {
    Patch(unread + (OldOf(parts) + rest), at - |unread|, ReadBack(parts, at)) == Some(unread + (NewOf(parts) + rest))
  }

  lemma {:induction false} LandsIff(unread: seq<string>, at: nat, parts: seq<Part>, rest: seq<string>)
    requires |unread| <= at && AllVisible(parts)
    ensures Lands(unread, at, parts, rest) <==> Anchored(unread, at, parts)
    decreases |parts|
  {
    hide OldSide, NewSide, Lands, Hidden;
    if parts == [] {
      LandsNone(unread, at, rest);
    } else {
      var p := parts[0];
      var o := at + |p.gap|;
      assert [p] + parts[1..] == parts;
      if OldSide(p.edits) != [] || o == 0 {
        LandsInPlace(unread, at, p, parts[1..], rest);
        LandsIff([], o + |OldSide(p.edits)|, parts[1..], rest);
      } else {
        LandsEarly(unread, at, p, parts[1..], rest);
        var ahead := unread + p.gap;
        if ahead != [] {
          var x := ahead[|ahead| - 1];
          LandsIff([x], o, parts[1..], rest);
          assert Anchored(unread, at, parts) <==>
            CopiesOf(NewSide(p.edits), x) && Anchored([x], o, parts[1..]);
        }
      }
    }
  }

  lemma LandsNone(unread: seq<string>, at: nat, rest: seq<string>)
    requires |unread| <= at
    ensures Lands(unread, at, [], rest)
  {
    PartsCons(Part([], []), [], rest);
  }

  lemma ReadBackCons(p: Part, more: seq<Part>, at: nat)
    requires forall e <- p.edits :: !Hidden(e)
    ensures var o := at + |p.gap|;
      ReadBack([p] + more, at) ==
        [Hunk(HunkStart(RangeStart(o, |OldSide(p.edits)|)), p.edits)] + ReadBack(more, o + |OldSide(p.edits)|)
  {
    hide OldSide, Hidden, Visible;
    assert ([p] + more)[1..] == more;
    VisibleAll(p.edits);
  }

  /** A hunk at its own position: the result is right when what follows it is. */
  lemma LandsInPlace(unread: seq<string>, at: nat, p: Part, more: seq<Part>, rest: seq<string>)
    requires |unread| <= at && (forall e <- p.edits :: !Hidden(e))
    requires OldSide(p.edits) != [] || at + |p.gap| == 0
    ensures Lands(unread, at, [p] + more, rest) <==> Lands([], at + |p.gap| + |OldSide(p.edits)|, more, rest)
  {
    hide OldSide, NewSide, Hidden, Patch, OldOf, NewOf, ReadBack;
    var gone, added := OldSide(p.edits), NewSide(p.edits);
    var ahead := unread + p.gap;
    var end := at + |p.gap| + |gone|;
    var tail, later := OldOf(more) + rest, NewOf(more) + rest;
    ReadBackCons(p, more, at);
    PartsCons(p, more, rest);
    Regroup(unread, p.gap, gone, tail);
    Regroup(unread, p.gap, added, later);
    PatchHunk(ahead, tail, at - |unread|, Hunk(at + |p.gap|, p.edits), ReadBack(more, end));
    assert [] + tail == tail && [] + later == later;
    var next := Patch(tail, end, ReadBack(more, end));
    if next.Some? { SamePrefix(ahead + added, next.value, later); }
  }

  lemma Regroup(a: seq<string>, b: seq<string>, c: seq<string>, d: seq<string>)
    ensures a + (b + c + d) == a + b + c + d
  {
  }

  /** Added lines one position early: right only for copies of the line they jumped over. */
  lemma LandsEarly(unread: seq<string>, at: nat, p: Part, more: seq<Part>, rest: seq<string>)
    requires |unread| <= at && (forall e <- p.edits :: !Hidden(e))
    requires OldSide(p.edits) == [] && at + |p.gap| > 0
    ensures var ahead := unread + p.gap;
      Lands(unread, at, [p] + more, rest) <==>
        && ahead != []
        && CopiesOf(NewSide(p.edits), ahead[|ahead| - 1])
        && Lands([ahead[|ahead| - 1]], at + |p.gap|, more, rest)
  {
    hide OldSide, NewSide, Hidden, OldOf, NewOf, ReadBack;
    var ahead := unread + p.gap;
    ReadBackCons(p, more, at);
    if ahead != [] {
      hide Patch, Lands;
      var front, x := ahead[..|ahead| - 1], ahead[|ahead| - 1];
      assert ahead == front + [x];
      LandsBehind(unread, at, p, more, rest, front, x);
    }
  }

  lemma LandsBehind(unread: seq<string>, at: nat, p: Part, more: seq<Part>, rest: seq<string>, front: seq<string>,
      x: string)
    requires |unread| <= at && (forall e <- p.edits :: !Hidden(e))
    requires OldSide(p.edits) == [] && unread + p.gap == front + [x]
    ensures Lands(unread, at, [p] + more, rest) <==>
      CopiesOf(NewSide(p.edits), x) && Lands([x], at + |p.gap|, more, rest)
  {
    hide OldSide, NewSide, Hidden, OldOf, NewOf, ReadBack, Patch;
    var added := NewSide(p.edits);
    var o := at + |p.gap|;
    var tail, later := OldOf(more) + rest, NewOf(more) + rest;
    ReadBackCons(p, more, at);
    PartsCons(p, more, rest);
    Regroup(unread, p.gap, [], tail);
    Regroup(unread, p.gap, added, later);
    assert front + [x] + [] + tail == front + [] + ([x] + tail);
    assert front + [x] + added + later == front + ([x] + added + later);
    PatchHunk(front, [x] + tail, at - |unread|, Hunk(o - 1, p.edits), ReadBack(more, o));
    var next := Patch([x] + tail, o - 1, ReadBack(more, o));
    if next.Some? {
      assert front + added + next.value == front + (added + next.value);
      Rotates(added, x, next.value, later);
      SamePrefix(front, added + next.value, [x] + added + later);
    }
  }

  // ---------- a hidden change is always missed ----------

  function DropCount(es: seq<Edit>, x: string): nat {
    if es == [] then 0 else (if es[0] == Drop(x) then 1 else 0) + DropCount(es[1..], x)
  }

  function AddCount(es: seq<Edit>, x: string): nat {
    if es == [] then 0 else (if es[0] == Add(x) then 1 else 0) + AddCount(es[1..], x)
  }

  function HunkDrops(hunks: seq<Hunk>, x: string): nat {
    if hunks == [] then 0 else DropCount(hunks[0].edits, x) + HunkDrops(hunks[1..], x)
  }

  function HunkAdds(hunks: seq<Hunk>, x: string): nat {
    if hunks == [] then 0 else AddCount(hunks[0].edits, x) + HunkAdds(hunks[1..], x)
  }

  /** The hunks with their own positions and every change visible. */
  function ExactHunks(parts: seq<Part>, at: nat): (hunks: seq<Hunk>)
    ensures Placed(at, hunks, parts)
  {
    if parts == [] then []
    else
      var o := at + |parts[0].gap|;
      var more := ExactHunks(parts[1..], o + |OldSide(parts[0].edits)|);
      assert ([Hunk(o, parts[0].edits)] + more)[1..] == more;
      [Hunk(o, parts[0].edits)] + more
  }

  lemma {:induction false} SideCounts(es: seq<Edit>, x: string)
    ensures Count(NewSide(es), x) + DropCount(es, x) == Count(OldSide(es), x) + AddCount(es, x)
  {
    if es != [] {
      SideCounts(es[1..], x);
    }
  }

  ghost function Count(lines: seq<string>, x: string): nat { multiset(lines)[x] }

  lemma CountThree(a: seq<string>, b: seq<string>, c: seq<string>, x: string)
    ensures Count(a + b + c, x) == Count(a, x) + Count(b, x) + Count(c, x)
  {
  }

  /** Whatever patching writes, its lines are counted by the hunks alone. */
  lemma {:induction false} PatchCounts(lines: seq<string>, at: nat, hunks: seq<Hunk>, x: string)
    requires Patch(lines, at, hunks).Some?
    ensures Count(Patch(lines, at, hunks).value, x) + HunkDrops(hunks, x) == Count(lines, x) + HunkAdds(hunks, x)
    decreases |hunks|
  {
    hide OldSide, NewSide, DropCount, AddCount, Count, Patch;
    PatchNone(lines, at);
    if hunks != [] {
      var h := hunks[0];
      assert [h] + hunks[1..] == hunks;
      var gap, tail := PatchedHunk(lines, at, h, hunks[1..]);
      PatchHunk(gap, tail, at, h, hunks[1..]);
      PatchCounts(tail, h.start + |OldSide(h.edits)|, hunks[1..], x);
      SideCounts(h.edits, x);
      CountThree(gap, OldSide(h.edits), tail, x);
      CountThree(gap, NewSide(h.edits), Patch(tail, h.start + |OldSide(h.edits)|, hunks[1..]).value, x);
    }
  }

  lemma {:induction false} VisibleCounts(es: seq<Edit>, x: string)
    ensures DropCount(Visible(es), x) == if StartsWith(x, "-- ") then 0 else DropCount(es, x)
    ensures AddCount(Visible(es), x) == if StartsWith(x, "++ ") then 0 else AddCount(es, x)
  {
    hide StartsWith;
    if es != [] {
      VisibleCounts(es[1..], x);
      if !Hidden(es[0]) {
        assert ([es[0]] + Visible(es[1..]))[1..] == Visible(es[1..]);
      } else {
        assert [] + Visible(es[1..]) == Visible(es[1..]);
      }
    }
  }

  lemma {:induction false} ReadBackCounts(parts: seq<Part>, at: nat, from: nat, x: string)
    ensures HunkDrops(ReadBack(parts, at), x) == if StartsWith(x, "-- ") then 0
        else HunkDrops(ExactHunks(parts, from), x)
    ensures HunkAdds(ReadBack(parts, at), x) == if StartsWith(x, "++ ") then 0 else HunkAdds(ExactHunks(parts, from), x)
  {
    hide StartsWith, Visible, DropCount, AddCount, OldSide;
    if parts != [] {
      var p := parts[0];
      var step := |p.gap| + |OldSide(p.edits)|;
      VisibleCounts(p.edits, x);
      ReadBackCounts(parts[1..], at + step, from + step, x);
    }
  }

  lemma {:induction false} EditCounted(es: seq<Edit>, e: Edit)
    requires e in es
    ensures e.Drop? ==> DropCount(es, e.line) > 0
    ensures e.Add? ==> AddCount(es, e.line) > 0
  {
    if es[0] != e {
      EditCounted(es[1..], e);
    }
  }

  /** Some line whose count the hidden changes of these parts would have moved. */
  lemma {:induction false} HiddenLine(parts: seq<Part>, at: nat) returns (x: string)
    requires !AllVisible(parts)
    ensures (StartsWith(x, "-- ") && HunkDrops(ExactHunks(parts, at), x) > 0)
         || (StartsWith(x, "++ ") && HunkAdds(ExactHunks(parts, at), x) > 0)
  {
    hide StartsWith, DropCount, AddCount, OldSide;
    var p := parts[0];
    if e :| e in p.edits && Hidden(e) {
      x := e.line;
      EditCounted(p.edits, e);
    } else {
      x := HiddenLine(parts[1..], at + |p.gap| + |OldSide(p.edits)|);
    }
  }

  lemma HiddenIsMissed(parts: seq<Part>, rest: seq<string>)
    requires !AllVisible(parts)
    ensures Patch(OldOf(parts) + rest, 0, ReadBack(parts, 0)) != Some(NewOf(parts) + rest)
  {
    hide Patch, HunkDrops, HunkAdds, ReadBack, ExactHunks, OldOf, NewOf, AllVisible, Placed;
    var lines := OldOf(parts) + rest;
    var x := HiddenLine(parts, 0);
    PlacedIsPatched(0, ExactHunks(parts, 0), parts, rest);
    PatchCounts(lines, 0, ExactHunks(parts, 0), x);
    ReadBackCounts(parts, 0, 0, x);
    assert !(StartsWith(x, "-- ") && StartsWith(x, "++ ")) by {
      assert StartsWith(x, "-- ") ==> x[0] == '-';
      assert StartsWith(x, "++ ") ==> x[0] == '+';
    }
    if Patch(lines, 0, ReadBack(parts, 0)).Some? {
      PatchCounts(lines, 0, ReadBack(parts, 0), x);
    }
  }

  /** Of the lines that no edit can hide, the printed diff writes as many as the change has. */
  lemma CountsOfOthers(parts: seq<Part>, rest: seq<string>, x: string)
    requires !StartsWith(x, "-- ") && !StartsWith(x, "++ ")
    requires Patch(OldOf(parts) + rest, 0, ReadBack(parts, 0)).Some?
    ensures Count(Patch(OldOf(parts) + rest, 0, ReadBack(parts, 0)).value, x) == Count(NewOf(parts) + rest, x)
  {
    hide Patch, HunkDrops, HunkAdds, ReadBack, ExactHunks, OldOf, NewOf, Placed, StartsWith;
    var lines := OldOf(parts) + rest;
    PlacedIsPatched(0, ExactHunks(parts, 0), parts, rest);
    PatchCounts(lines, 0, ExactHunks(parts, 0), x);
    ReadBackCounts(parts, 0, 0, x);
    PatchCounts(lines, 0, ReadBack(parts, 0), x);
  }

  // ---------- the whole text ----------

  /**
   * What a caller can check of a change before printing it: it has a hunk, it leaves a line in the file, no deleted
   * line starts with "-- " and no added one with "++ ", and every hunk that only adds lines stands at the very
   * beginning of the old file or adds copies of the line it is printed behind.
   */
  ghost predicate AppliesAsPrinted(parts: seq<Part>, rest: seq<string>) {
    parts != [] && NewOf(parts) + rest != [] && AllVisible(parts) && Anchored([], 0, parts)
  }

  ghost predicate PlainChange(parts: seq<Part>, rest: seq<string>) {
    AllPlain(OldOf(parts) + rest) && AllPlain(NewOf(parts) + rest)
  }

  lemma SourceOfText(lines: seq<string>)
    requires AllPlain(lines)
    ensures SourceLines(TextOf(lines)) == lines
  {
    NormalizeTextOf(lines);
    SplitTextOf(lines);
    assert (lines + [""])[..|lines|] == lines;
    if lines != [] { TextOfEndsInNewline(lines); }
  }

  function Coded(text: string, crlf: bool): string { if crlf then CrLf(text) else text }

  /** The lines of a text, whether or not its last one is ended, and however its lines end. */
  lemma SourceOfAny(lines: seq<string>, ended: bool, crlf: bool)
    requires AllPlain(lines) && (ended || (lines != [] && lines[|lines| - 1] != ""))
    ensures SourceLines(Coded(if ended then TextOf(lines) else Join(lines), crlf)) == lines
  {
    hide TextOf, Join, SourceLines, Coded, AllPlain;
    if ended { SourceOfEnded(lines, crlf); } else { SourceOfUnended(lines, crlf); }
  }

  lemma SourceOfEnded(lines: seq<string>, crlf: bool)
    requires AllPlain(lines)
    ensures SourceLines(Coded(TextOf(lines), crlf)) == lines
  {
    hide TextOf, Split, NormalizeNewlines, SourceLines, Coded, AllPlain;
    NormalizeTextOf(lines);
    SplitTextOf(lines);
    TakeOfConcat(lines, [""], |lines|);
    assert lines[..|lines|] == lines;
    if lines != [] { TextOfEndsInNewline(lines); } else { NoText(); }
    SourceLinesAre(TextOf(lines), crlf, lines + [""]);
  }

  lemma SourceOfUnended(lines: seq<string>, crlf: bool)
    requires AllPlain(lines) && lines != [] && lines[|lines| - 1] != ""
    ensures SourceLines(Coded(Join(lines), crlf)) == lines
  {
    hide Join, Split, NormalizeNewlines, SourceLines, Coded, AllPlain;
    SplitJoin(lines);
    NormalizeJoin(lines);
    JoinEnds(lines);
    PlainLast(lines);
    SourceLinesAre(Join(lines), crlf, lines);
  }

  lemma NoText()
    ensures TextOf([]) == ""
  {
  }

  lemma SourceLinesAre(text: string, crlf: bool, lines: seq<string>)
    requires NormalizeNewlines(text) == text && Split(text) == lines
    ensures SourceLines(Coded(text, crlf))
         == if text == "" || text[|text| - 1] == '\n' then lines[..|lines| - 1] else lines
  {
    hide Split, CrLf, NormalizeNewlines, SourceLines;
    NormalizeCrLf(text);
    CrLfEnds(text);
    SourceLinesUnfold(Coded(text, crlf));
  }

  lemma SourceLinesUnfold(before: string)
    ensures SourceLines(before) ==
      var ls := Split(NormalizeNewlines(before));
      if before == "" || before[|before| - 1] == '\n' then ls[..|ls| - 1] else ls
  {
  }

  lemma PlainLast(lines: seq<string>)
    requires AllPlain(lines) && lines != [] && lines[|lines| - 1] != ""
    ensures var l := lines[|lines| - 1]; l[|l| - 1] != '\n'
  {
    var l := lines[|lines| - 1];
    assert Plain(l) && l[|l| - 1] in l;
  }

  lemma {:induction false} CrLfEnds(s: string)
    ensures CrLf(s) == "" <==> s == ""
    ensures s != "" ==> CrLf(s)[|CrLf(s)| - 1] == s[|s| - 1]
  {
    if s != "" { CrLfEnds(s[1..]); }
  }

  /**
   * How lines end in the old text and in the diff makes no difference, and neither does a last line that is not ended:
   * the new text has line feeds, and ends in one unless the diff says otherwise.
   */
  lemma EndingsDoNotMatter(lines: seq<string>, ended: bool, crlf: bool, diffLines: seq<string>, diffCrLf: bool)
    requires AllPlain(lines) && (ended || (lines != [] && lines[|lines| - 1] != "")) && AllPlain(diffLines)
    ensures Applied(Coded(if ended then TextOf(lines) else Join(lines), crlf), Coded(TextOf(diffLines), diffCrLf))
         == Applied(TextOf(lines), TextOf(diffLines))
  {
    hide TextOf, Join, Split, CrLf, NormalizeNewlines, SourceLines, ApplyHunks, Coded;
    SourceOfAny(lines, ended, crlf);
    SourceOfText(lines);
    NormalizeCoded(diffLines, diffCrLf);
  }

  lemma NormalizeCoded(lines: seq<string>, crlf: bool)
    requires AllPlain(lines)
    ensures NormalizeNewlines(Coded(TextOf(lines), crlf)) == TextOf(lines) == NormalizeNewlines(TextOf(lines))
  {
    hide TextOf, CrLf, NormalizeNewlines;
    NormalizeTextOf(lines);
    NormalizeCrLf(TextOf(lines));
  }

  lemma {:induction false} EditsPlain(es: seq<Edit>)
    requires AllPlain(OldSide(es)) && AllPlain(NewSide(es))
    ensures AllPlain(PrintEdits(es))
  {
    if es != [] {
      var e := es[0];
      assert [e] + es[1..] == es;
      EditsStep(e, es[1..]);
      assert !e.Add? ==> OldSide(es)[0] == e.line;
      assert e.Add? ==> NewSide(es)[0] == e.line;
      assert Plain(e.line);
      PrintedEditPlain(e);
      forall l | l in OldSide(es[1..]) ensures Plain(l) { assert l in OldSide(es); }
      forall l | l in NewSide(es[1..]) ensures Plain(l) { assert l in NewSide(es); }
      EditsPlain(es[1..]);
    }
  }

  lemma PrintedEditPlain(e: Edit)
    requires Plain(e.line)
    ensures Plain(PrintEdit(e))
  {
    var line := PrintEdit(e);
    assert e.line != "" ==> line[|line| - 1] == e.line[|e.line| - 1];
  }

  lemma PlainConcat(a: seq<string>, b: seq<string>)
    ensures AllPlain(a + b) <==> AllPlain(a) && AllPlain(b)
  {
    hide Plain;
    if AllPlain(a + b) {
      forall l | l in a ensures Plain(l) { assert l in a + b; }
      forall l | l in b ensures Plain(l) { assert l in a + b; }
    }
  }

  lemma PlainThree(a: seq<string>, b: seq<string>, c: seq<string>)
    ensures AllPlain(a + b + c) <==> AllPlain(a) && AllPlain(b) && AllPlain(c)
  {
    hide AllPlain;
    PlainConcat(a + b, c);
    PlainConcat(a, b);
  }

  lemma UnfoldParts(parts: seq<Part>)
    requires parts != []
    ensures OldOf(parts) == parts[0].gap + OldSide(parts[0].edits) + OldOf(parts[1..])
    ensures NewOf(parts) == parts[0].gap + NewSide(parts[0].edits) + NewOf(parts[1..])
  {
  }

  lemma UnfoldPrint(f: Format, parts: seq<Part>, oldAt: nat, newAt: nat)
    requires parts != []
    ensures var p := parts[0];
      var o, n := oldAt + |p.gap|, newAt + |p.gap|;
      var oc, nc := |OldSide(p.edits)|, |NewSide(p.edits)|;
      PrintParts(f, parts, oldAt, newAt) ==
        [Header(f, RangeStart(o, oc), oc, RangeStart(n, nc), nc)] + PrintEdits(p.edits)
            + PrintParts(f, parts[1..], o + oc, n + nc)
  {
  }

  lemma {:induction false} PartsPlain(f: Format, parts: seq<Part>, oldAt: nat, newAt: nat)
    requires Plain(f.section)
    requires AllPlain(OldOf(parts)) && AllPlain(NewOf(parts))
    ensures AllPlain(PrintParts(f, parts, oldAt, newAt))
  {
    hide OldSide, NewSide, Header, AllPlain, PrintEdits, Plain;
    if parts == [] {
      PlainNone();
    } else {
      hide PrintParts, OldOf, NewOf;
      var p := parts[0];
      var o, n := oldAt + |p.gap|, newAt + |p.gap|;
      var oc, nc := |OldSide(p.edits)|, |NewSide(p.edits)|;
      var header := Header(f, RangeStart(o, oc), oc, RangeStart(n, nc), nc);
      HeaderPlain(f, RangeStart(o, oc), oc, RangeStart(n, nc), nc);
      PlainOne(header);
      UnfoldParts(parts);
      UnfoldPrint(f, parts, oldAt, newAt);
      PlainThree(p.gap, OldSide(p.edits), OldOf(parts[1..]));
      PlainThree(p.gap, NewSide(p.edits), NewOf(parts[1..]));
      EditsPlain(p.edits);
      PartsPlain(f, parts[1..], o + oc, n + nc);
      PlainThree([header], PrintEdits(p.edits), PrintParts(f, parts[1..], o + oc, n + nc));
    }
  }

  lemma PlainNone()
    ensures AllPlain([])
  {
  }

  lemma PlainOne(l: string)
    requires Plain(l)
    ensures AllPlain([l])
  {
  }

  ghost predicate HunksPlain(hunks: seq<Hunk>) {
    hunks != [] ==> AllPlain(NewSide(hunks[0].edits)) && HunksPlain(hunks[1..])
  }

  /** Patching writes only lines it was given. */
  lemma {:induction false} PatchedPlain(lines: seq<string>, at: nat, hunks: seq<Hunk>)
    requires Patch(lines, at, hunks).Some? && AllPlain(lines)
    requires HunksPlain(hunks)
    ensures AllPlain(Patch(lines, at, hunks).value)
    decreases |hunks|
  {
    hide OldSide, NewSide, AllPlain, Patch;
    PatchNone(lines, at);
    if hunks != [] {
      var h := hunks[0];
      assert [h] + hunks[1..] == hunks;
      var gap, tail := PatchedHunk(lines, at, h, hunks[1..]);
      PatchHunk(gap, tail, at, h, hunks[1..]);
      PlainThree(gap, OldSide(h.edits), tail);
      PatchedPlain(tail, h.start + |OldSide(h.edits)|, hunks[1..]);
      PlainThree(gap, NewSide(h.edits), Patch(tail, h.start + |OldSide(h.edits)|, hunks[1..]).value);
    }
  }

  lemma {:induction false} VisiblePlain(es: seq<Edit>)
    requires AllPlain(NewSide(es))
    ensures AllPlain(NewSide(Visible(es)))
  {
    hide Hidden, AllPlain, NewSide;
    if es == [] {
      assert Visible(es) == es;
    } else {
      var e := es[0];
      assert [e] + es[1..] == es;
      EditsStep(e, es[1..]);
      EditsStep(e, Visible(es[1..]));
      if !e.Drop? {
        PlainConcat([e.line], NewSide(es[1..]));
        PlainConcat([e.line], NewSide(Visible(es[1..])));
      }
      VisiblePlain(es[1..]);
      assert [] + Visible(es[1..]) == Visible(es[1..]);
    }
  }

  lemma {:induction false} ReadBackPlain(parts: seq<Part>, at: nat)
    requires AllPlain(NewOf(parts))
    ensures HunksPlain(ReadBack(parts, at))
  {
    hide NewSide, OldSide, AllPlain, Visible;
    if parts != [] {
      var p := parts[0];
      PlainConcat(p.gap + NewSide(p.edits), NewOf(parts[1..]));
      PlainConcat(p.gap, NewSide(p.edits));
      VisiblePlain(p.edits);
      ReadBackPlain(parts[1..], at + |p.gap| + |OldSide(p.edits)|);
    }
  }

  /** A printed diff applied to the old text: read back as hunks, patched, and written with a final newline. */
  lemma AppliedPrinted(f: Format, parts: seq<Part>, rest: seq<string>)
    requires Plain(f.section)
    requires PlainChange(parts, rest)
    ensures var r := Applied(TextOf(OldOf(parts) + rest), DiffText(f, parts));
      var out := Patch(OldOf(parts) + rest, 0, ReadBack(parts, 0));
      && (r.Ok? <==> parts != [] && out.Some?)
      && (r.Ok? ==> r.value == Join(out.value) + "\n")
  {
    hide OldSide, NewSide, Applied, Patch, Split, NormalizeNewlines, SourceLines, Join, ParseDiff, TextOf, Plain;
    var lines := PrintParts(f, parts, 0, 0);
    PlainConcat(OldOf(parts), rest);
    PlainConcat(NewOf(parts), rest);
    PartsPlain(f, parts, 0, 0);
    NormalizeTextOf(lines);
    SplitTextOf(lines);
    ParsePrinted(f, parts, 0, 0);
    SourceOfText(OldOf(parts) + rest);
    AppliedMeaning(TextOf(OldOf(parts) + rest), DiffText(f, parts));
  }

  /** A text written from other lines than the intended ones is another text, but for one empty line. */
  lemma WrittenIs(out: seq<string>, lines: seq<string>)
    requires AllPlain(lines) && AllPlain(out) && Join(out) + "\n" == TextOf(lines)
    ensures lines != [] && (out == lines || (out == [] && lines == [""]))
  {
    if out != [] {
      JoinIsTextOf(out);
      TextOfInjective(out, lines);
    } else {
      PlainOne("");
      assert TextOf([""]) == "\n" + TextOf([]) == "\n";
      TextOfInjective([""], lines);
    }
  }

  /**
   * For every plain change laid out as hunks: its printed diff turns the old text into the new one exactly when the
   * change meets AppliesAsPrinted.
   */
  lemma PrintedDiffAppliesIff(f: Format, parts: seq<Part>, rest: seq<string>)
    requires Plain(f.section)
    requires PlainChange(parts, rest)
    ensures Applied(TextOf(OldOf(parts) + rest), DiffText(f, parts)) == Ok(TextOf(NewOf(parts) + rest))
       <==> AppliesAsPrinted(parts, rest)
  {
    hide Applied, Patch, ReadBack, OldOf, NewOf, AllVisible, Anchored, Join, TextOf, DiffText;
    var r := Applied(TextOf(OldOf(parts) + rest), DiffText(f, parts));
    var out := Patch(OldOf(parts) + rest, 0, ReadBack(parts, 0));
    var lines := NewOf(parts) + rest;
    AppliedPrinted(f, parts, rest);
    LandsAtStart(parts, rest);
    if AppliesAsPrinted(parts, rest) {
      JoinIsTextOf(lines);
    } else if r == Ok(TextOf(lines)) {
      PrintedPlain(parts, rest);
      WrittenIs(out.value, lines);
      if out.value == [] && lines == [""] {
        assert Count([""], "") == 1 && Count([], "") == 0;
        CountsOfOthers(parts, rest, "");
      }
      assert false;
    }
  }

  lemma PrintedPlain(parts: seq<Part>, rest: seq<string>)
    requires PlainChange(parts, rest) && Patch(OldOf(parts) + rest, 0, ReadBack(parts, 0)).Some?
    ensures AllPlain(Patch(OldOf(parts) + rest, 0, ReadBack(parts, 0)).value)
  {
    hide Patch, ReadBack, OldOf, NewOf, AllPlain;
    PlainConcat(NewOf(parts), rest);
    ReadBackPlain(parts, 0);
    PatchedPlain(OldOf(parts) + rest, 0, ReadBack(parts, 0));
  }

  lemma LandsAtStart(parts: seq<Part>, rest: seq<string>)
    ensures Patch(OldOf(parts) + rest, 0, ReadBack(parts, 0)) == Some(NewOf(parts) + rest)
       <==> AllVisible(parts) && Anchored([], 0, parts)
  {
    hide Patch, ReadBack, OldOf, NewOf, AllVisible, Anchored;
    if AllVisible(parts) {
      LandsIff([], 0, parts, rest);
      assert [] + (OldOf(parts) + rest) == OldOf(parts) + rest;
      assert [] + (NewOf(parts) + rest) == NewOf(parts) + rest;
    } else {
      HiddenIsMissed(parts, rest);
    }
  }

  /** There and back: a printed diff and then its printed inverse give the original text. */
  lemma PrintedDiffRoundTrip(f: Format, parts: seq<Part>, rest: seq<string>)
    requires Plain(f.section)
    requires PlainChange(parts, rest)
    requires AppliesAsPrinted(parts, rest) && AppliesAsPrinted(InvertParts(parts), rest)
    ensures var before := TextOf(OldOf(parts) + rest);
      var there := Applied(before, DiffText(f, parts));
      there.Ok? && Applied(there.value, DiffText(f, InvertParts(parts))) == Ok(before)
  {
    hide Applied, OldOf, NewOf, AppliesAsPrinted, TextOf, DiffText;
    PrintedDiffAppliesIff(f, parts, rest);
    PrintedDiffAppliesIff(f, InvertParts(parts), rest);
  }

  /** Hunks with a line on both sides, none of whose changed lines reads as a file header either way round. */
  ghost predicate OrdinaryHunks(parts: seq<Part>) {
    parts != [] ==>
      && OldSide(parts[0].edits) != [] && NewSide(parts[0].edits) != []
      && (forall e <- parts[0].edits :: e.Keep? || (!StartsWith(e.line, "-- ") && !StartsWith(e.line, "++ ")))
      && OrdinaryHunks(parts[1..])
  }

  lemma {:induction false} OrdinaryHunksHold(parts: seq<Part>, at: nat)
    requires OrdinaryHunks(parts)
    ensures AllVisible(parts) && Anchored([], at, parts)
    ensures parts != [] ==> OldOf(parts) != [] && NewOf(parts) != []
  {
    hide StartsWith, OldSide, NewSide;
    if parts != [] {
      var p := parts[0];
      OrdinaryHunksHold(parts[1..], at + |p.gap| + |OldSide(p.edits)|);
      UnfoldParts(parts);
    }
  }

  lemma {:induction false} OrdinaryInverse(parts: seq<Part>)
    requires OrdinaryHunks(parts)
    ensures OrdinaryHunks(InvertParts(parts))
  {
    hide StartsWith, OldSide, NewSide, OldOf, NewOf;
    if parts != [] {
      var p := parts[0];
      OrdinaryInverse(parts[1..]);
      InvertLines(p.edits);
      assert ([Part(p.gap, Invert(p.edits))] + InvertParts(parts[1..]))[1..] == InvertParts(parts[1..]);
    }
  }

  lemma {:induction false} InvertLines(es: seq<Edit>)
    ensures forall e <- Invert(es) :: exists d <- es :: d.line == e.line && (d.Keep? <==> e.Keep?)
  {
    if es != [] {
      InvertLines(es[1..]);
      forall e | e in Invert(es) ensures exists d <- es :: d.line == e.line && (d.Keep? <==> e.Keep?) {
        if e == InvertEdit(es[0]) {
          assert es[0] in es;
        } else {
          assert e in Invert(es[1..]);
          var d :| d in es[1..] && d.line == e.line && (d.Keep? <==> e.Keep?);
          assert d in es;
        }
      }
    }
  }

  /** Every ordinary change of LF text, with at least one hunk, round-trips through the printed format. */
  lemma OrdinaryDiffRoundTrips(f: Format, parts: seq<Part>, rest: seq<string>)
    requires Plain(f.section)
    requires PlainChange(parts, rest) && parts != [] && OrdinaryHunks(parts)
    ensures var before := TextOf(OldOf(parts) + rest);
      && Applied(before, DiffText(f, parts)) == Ok(TextOf(NewOf(parts) + rest))
      && Applied(TextOf(NewOf(parts) + rest), DiffText(f, InvertParts(parts))) == Ok(before)
  {
    hide Applied, TextOf, DiffText, Anchored, AllVisible, OrdinaryHunks, OldOf, NewOf;
    OrdinaryInverse(parts);
    OrdinaryHunksHold(parts, 0);
    OrdinaryHunksHold(InvertParts(parts), 0);
    PrintedDiffAppliesIff(f, parts, rest);
    PrintedDiffAppliesIff(f, InvertParts(parts), rest);
  }

  /** A line added behind the only line, printed without context, is written in front of it. */
  lemma InsertionLandsEarly(f: Format, a: string, b: string)
    requires Plain(f.section) && Plain(a) && Plain(b) && a != b && !StartsWith(b, "++ ")
    ensures var parts := [Part([a], [Add(b)])];
      && OldOf(parts) == [a] && NewOf(parts) == [a, b]
      && Applied(TextOf([a]), DiffText(f, parts)) == Ok(TextOf([b, a]))
  {
    var parts := [Part([a], [Add(b)])];
    hide Applied, TextOf, DiffText, Join;
    EditsStep(Add(b), []);
    SidesOfNone();
    assert [Add(b)] + [] == [Add(b)] && [Part([a], [Add(b)])] + [] == parts;
    PartsCons(Part([a], [Add(b)]), [], []);
    assert OldOf(parts) + [] == OldOf(parts) && NewOf(parts) + [] == NewOf(parts);
    assert OldOf(parts) == [a] && NewOf(parts) == [a, b];
    assert OldOf(parts) + [] == [a] && NewOf(parts) + [] == [a, b];
    AppliedPrinted(f, parts, []);
    VisibleAll([Add(b)]);
    assert ReadBack(parts, 0) == [Hunk(0, [Add(b)])];
    PatchHunk([], [a], 0, Hunk(0, [Add(b)]), []);
    assert [] + OldSide([Add(b)]) + [a] == [a];
    assert [] + NewSide([Add(b)]) + [a] == [b, a];
    JoinIsTextOf([b, a]);
  }

  // ---------- lines of no change inside a printed diff ----------

  function Insert<T>(s: seq<T>, k: nat, x: T): seq<T>
    requires k <= |s|
  {
    s[..k] + [x] + s[k..]
  }

  /** What a line that is no change does to the diff around it. */
  function Around(line: BodyLine, d: ParsedDiff): Option<ParsedDiff>
    requires !line.Change?
  {
    match line
    case Skipped => Some(d)
    case NoFinalNewline => Some(d.(noFinalNewline := true))
    case Unsupported => None
  }

  lemma InsertFirst<T>(s: seq<T>, x: T)
    ensures Insert(s, 0, x) == [x] + s
  {
  }

  lemma InsertBehind<T>(a: seq<T>, b: seq<T>, k: nat, x: T)
    requires k <= |a| + |b|
    ensures Insert(a + b, k, x) == if k <= |a| then Insert(a, k, x) + b else a + Insert(b, k - |a|, x)
  {
    if k <= |a| {
      TakeOfConcat(a, b, k);
      DropOfConcat(a, b, k);
    } else {
      assert (a + b)[..k] == a + b[..k - |a|];
      assert (a + b)[k..] == b[k - |a|..];
    }
  }

  lemma {:induction false} ParseBodyInserted(es: seq<Edit>, k: nat, l: string, tail: seq<string>)
    requires EndsBody(tail) && k <= |PrintEdits(es)| && !StartsWith(l, "@@ ") && !ReadBodyLine(l, false).Change?
    ensures ParseBody(Insert(PrintEdits(es), k, l) + tail)
         == WithLine(ReadBodyLine(l, false), Some(Body(Visible(es), false, if tail == [""] then [] else tail)))
  {
    hide ReadBodyLine, Hidden, PrintEdit, StartsWith, ParseBody, PrintEdits, Visible, WithLine, Insert, EndsBody;
    var behind := if tail == [""] then [] else tail;
    SomeTail(tail);
    if k == 0 {
      InsertFirst(PrintEdits(es), l);
      assert [l] + PrintEdits(es) + tail == [l] + (PrintEdits(es) + tail);
      ParsePrintedBody(es, tail);
      ParseBodyStep(l, PrintEdits(es) + tail);
    } else {
      SomeEdits(es);
      var first, more := PrintEdit(es[0]), PrintEdits(es[1..]);
      PrintEditsFront(es);
      VisibleFront(es);
      InsertBehind([first], more, k, l);
      if k == 1 {
        InsertAtEnd(first, l);
        InsertFirst(more, l);
        assert [first] + [l] + more == [first] + ([l] + more);
      }
      assert [first] + Insert(more, k - 1, l) + tail == [first] + (Insert(more, k - 1, l) + tail);
      PrintedEditReads(es[0], false);
      ParseBodyInserted(es[1..], k - 1, l, tail);
      ParseBodyStep(first, Insert(more, k - 1, l) + tail);
      LineBehindEdit(es[0], ReadBodyLine(l, false), Visible(es[1..]), behind);
    }
  }

  lemma SomeTail(tail: seq<string>)
    requires EndsBody(tail)
    ensures tail != []
  {
  }

  lemma SomeEdits(es: seq<Edit>)
    ensures PrintEdits(es) != [] ==> es != []
  {
  }

  lemma PrintEditsFront(es: seq<Edit>)
    requires es != []
    ensures PrintEdits(es) == [PrintEdit(es[0])] + PrintEdits(es[1..])
  {
  }

  lemma VisibleFront(es: seq<Edit>)
    requires es != []
    ensures Visible(es) == (if Hidden(es[0]) then [] else [es[0]]) + Visible(es[1..])
  {
  }

  /** A line of no change does the same in front of a printed edit as behind it. */
  lemma LineBehindEdit(e: Edit, line: BodyLine, edits: seq<Edit>, behind: seq<string>)
    requires !line.Change?
    ensures WithLine(if Hidden(e) then Skipped else Change(e), WithLine(line, Some(Body(edits, false, behind))))
         == WithLine(line, Some(Body((if Hidden(e) then [] else [e]) + edits, false, behind)))
  {
    hide Hidden;
    assert [] + edits == edits;
  }

  lemma ParseBodyStep(line: string, more: seq<string>)
    requires !StartsWith(line, "@@ ") && more != []
    ensures ParseBody([line] + more) == WithLine(ReadBodyLine(line, false), ParseBody(more))
  {
    assert ([line] + more)[1..] == more;
  }

  /** A line of no change, anywhere behind the first header. */
  lemma {:induction false} ParseInserted(f: Format, parts: seq<Part>, oldAt: nat, newAt: nat, k: nat, l: string)
    requires 0 < k <= |PrintParts(f, parts, oldAt, newAt)|
    requires !StartsWith(l, "@@ ") && !ReadBodyLine(l, false).Change?
    ensures ParseDiff(Insert(PrintParts(f, parts, oldAt, newAt), k, l) + [""])
         == Around(ReadBodyLine(l, false), ParsedDiff(ReadBack(parts, oldAt), false))
    decreases |parts|
  {
    hide ReadHeader, ParseBody, ParseDiff, Header, Visible, StartsWith, OldSide, NewSide, EndsBody, PrintEdits;
    hide ReadBodyLine, PrintParts, Insert, ReadBack, Around, WithLine, WithHunk;
    SomePrinted(f, parts, oldAt, newAt);
    var p := parts[0];
    var o, n := oldAt + |p.gap|, newAt + |p.gap|;
    var oc, nc := |OldSide(p.edits)|, |NewSide(p.edits)|;
    var start := RangeStart(o, oc);
    var header := Header(f, start, oc, RangeStart(n, nc), nc);
    var body, more := PrintEdits(p.edits), PrintParts(f, parts[1..], o + oc, n + nc);
    UnfoldPrint(f, parts, oldAt, newAt);
    UnfoldReadBack(parts, oldAt);
    InsertedShape(header, body, more, k, l);
    ReadHeaderOf(f, start, oc, RangeStart(n, nc), nc);
    PrintedEndsBody(f, parts[1..], o + oc, n + nc);
    if k - 1 <= |body| {
      var tail := more + [""];
      ParseDiffStep(header, start, Insert(body, k - 1, l) + tail);
      ParseBodyInserted(p.edits, k - 1, l, tail);
      ParsePrinted(f, parts[1..], o + oc, n + nc);
      ParseDiffEnds();
      HunkAround(HunkStart(start), Visible(p.edits), tail, ReadBodyLine(l, false), ReadBack(parts[1..], o + oc));
    } else {
      var j := k - 1 - |body|;
      SomePrinted(f, parts[1..], o + oc, n + nc);
      var tail := Insert(more, j, l) + [""];
      ParseDiffStep(header, start, body + tail);
      StartsTheSame(more, j, l);
      ParsePrintedBody(p.edits, tail);
      ParseInserted(f, parts[1..], o + oc, n + nc, j, l);
      HunkInFront(HunkStart(start), Visible(p.edits), tail, ReadBodyLine(l, false), ReadBack(parts[1..], o + oc));
    }
  }

  lemma SomePrinted(f: Format, parts: seq<Part>, oldAt: nat, newAt: nat)
    ensures PrintParts(f, parts, oldAt, newAt) != [] ==> parts != []
  {
  }

  lemma UnfoldReadBack(parts: seq<Part>, oldAt: nat)
    requires parts != []
    ensures var p := parts[0];
      var o, oc := oldAt + |p.gap|, |OldSide(p.edits)|;
      ReadBack(parts, oldAt)
        == [Hunk(HunkStart(RangeStart(o, oc)), Visible(p.edits))] + ReadBack(parts[1..], o + oc)
  {
  }

  lemma InsertedShape(header: string, body: seq<string>, more: seq<string>, k: nat, l: string)
    requires 0 < k <= 1 + |body| + |more|
    ensures var lines := [header] + body + more;
      Insert(lines, k, l) + [""] ==
        if k - 1 <= |body| then [header] + (Insert(body, k - 1, l) + (more + [""]))
        else [header] + (body + (Insert(more, k - 1 - |body|, l) + [""]))
  {
    hide Insert;
    assert [header] + body + more == [header] + (body + more);
    InsertBehind([header], body + more, k, l);
    if k == 1 {
      InsertAtEnd(header, l);
      InsertFirst(body + more, l);
      assert [header] + [l] + (body + more) == [header] + ([l] + (body + more));
    }
    InsertBehind(body, more, k - 1, l);
    var lines := [header] + body + more;
    if k - 1 <= |body| {
      var x := Insert(body, k - 1, l);
      assert Insert(lines, k, l) == [header] + (x + more);
      assert [header] + (x + more) + [""] == [header] + (x + (more + [""]));
    } else {
      var x := Insert(more, k - 1 - |body|, l);
      assert Insert(lines, k, l) == [header] + (body + x);
      assert [header] + (body + x) + [""] == [header] + (body + (x + [""]));
    }
  }

  lemma InsertAtEnd(header: string, l: string)
    ensures Insert([header], 1, l) == [header] + [l]
  {
  }

  lemma HunkInFront(start: nat, edits: seq<Edit>, tail: seq<string>, line: BodyLine, hunks: seq<Hunk>)
    requires !line.Change? && ParseDiff(tail) == Around(line, ParsedDiff(hunks, false))
    ensures WithHunk(start, Some(Body(edits, false, tail)))
         == Around(line, ParsedDiff([Hunk(start, edits)] + hunks, false))
  {
    hide ParseDiff;
  }

  lemma StartsTheSame(more: seq<string>, j: nat, l: string)
    requires 0 < j <= |more| && EndsBody(more + [""])
    ensures EndsBody(Insert(more, j, l) + [""]) && Insert(more, j, l) + [""] != [""]
  {
    assert (more + [""])[0] == more[0] == (Insert(more, j, l) + [""])[0];
  }

  lemma HunkAround(start: nat, edits: seq<Edit>, tail: seq<string>, line: BodyLine, hunks: seq<Hunk>)
    requires tail != [] && !line.Change? && ParseDiff(tail) == Some(ParsedDiff(hunks, false))
    requires ParseDiff([]) == ParseDiff([""])
    ensures WithHunk(start, WithLine(line, Some(Body(edits, false, if tail == [""] then [] else tail))))
         == Around(line, ParsedDiff([Hunk(start, edits)] + hunks, false))
  {
    hide ParseDiff;
  }

  lemma PlainInserted(lines: seq<string>, k: nat, l: string)
    requires k <= |lines| && AllPlain(lines) && Plain(l)
    ensures AllPlain(Insert(lines, k, l))
  {
    hide Plain;
    forall x | x in Insert(lines, k, l) ensures Plain(x) {
      if x != l { assert x in lines[..k] || x in lines[k..]; }
    }
  }

  /** The printed diff with such a line in it, applied. */
  lemma AppliedInserted(f: Format, parts: seq<Part>, rest: seq<string>, k: nat, l: string)
    requires Plain(f.section) && PlainChange(parts, rest) && Plain(l)
    requires 0 < k <= |PrintParts(f, parts, 0, 0)|
    requires !StartsWith(l, "@@ ") && !ReadBodyLine(l, false).Change?
    ensures var r := Applied(TextOf(OldOf(parts) + rest), TextOf(Insert(PrintParts(f, parts, 0, 0), k, l)));
      var out := Patch(OldOf(parts) + rest, 0, ReadBack(parts, 0));
      match ReadBodyLine(l, false)
      case Skipped =>
        var plain := Applied(TextOf(OldOf(parts) + rest), DiffText(f, parts)); r.Ok? || plain.Ok? ==> r == plain
      case NoFinalNewline => r.Ok? == out.Some? && (r.Ok? ==> r.value == Join(out.value))
      case _ => r.Err?
  {
    hide OldSide, NewSide, Applied, Patch, Split, NormalizeNewlines, SourceLines, Join, ParseDiff, TextOf, Plain;
    hide ReadBodyLine, StartsWith, Insert;
    var lines := PrintParts(f, parts, 0, 0);
    var before := TextOf(OldOf(parts) + rest);
    PlainConcat(OldOf(parts), rest);
    PlainConcat(NewOf(parts), rest);
    PartsPlain(f, parts, 0, 0);
    PlainInserted(lines, k, l);
    var more := Insert(lines, k, l);
    NormalizeTextOf(lines);
    SplitTextOf(lines);
    NormalizeTextOf(more);
    SplitTextOf(more);
    ParsePrinted(f, parts, 0, 0);
    ParseInserted(f, parts, 0, 0, k, l);
    SourceOfText(OldOf(parts) + rest);
    SameParse(before, DiffText(f, parts), TextOf(more));
    AppliedMeaning(before, TextOf(more));
  }

  lemma SameParse(before: string, a: string, b: string)
    ensures ParseDiff(Split(NormalizeNewlines(a))) == ParseDiff(Split(NormalizeNewlines(b))) ==>
      (Applied(before, a).Ok? || Applied(before, b).Ok? ==> Applied(before, a) == Applied(before, b))
  {
    hide Applied, ParseDiff, Split, NormalizeNewlines, SourceLines, Patch, Join;
    AppliedMeaning(before, a);
    AppliedMeaning(before, b);
  }

  /** Two lists of plain lines with one joined text are one list, but for a single empty line. */
  lemma JoinIs(a: seq<string>, b: seq<string>)
    requires AllPlain(a) && AllPlain(b) && Join(a) == Join(b)
    ensures a == b || (a == [] && b == [""]) || (a == [""] && b == [])
  {
    hide Join;
    if a != [] && b != [] {
      SplitJoin(a);
      SplitJoin(b);
    } else if b != [] {
      SplitJoin(b);
      assert Join([]) == "" && Split("") == [""] by { JoinNothing(); }
    } else if a != [] {
      SplitJoin(a);
      assert Join([]) == "" && Split("") == [""] by { JoinNothing(); }
    }
  }

  lemma JoinNothing()
    ensures Join([]) == "" && Split("") == [""]
  {
  }

  /**
   * The line `\ No newline at end of file`, printed anywhere behind the first header: the diff then writes the new
   * lines without a final newline, exactly when no change is hidden and every hunk is anchored.
   */
  lemma MarkedDiffAppliesIff(f: Format, parts: seq<Part>, rest: seq<string>, k: nat)
    requires Plain(f.section) && PlainChange(parts, rest)
    requires 0 < k <= |PrintParts(f, parts, 0, 0)|
    ensures var marked := Insert(PrintParts(f, parts, 0, 0), k, "\\ No newline at end of file");
      Applied(TextOf(OldOf(parts) + rest), TextOf(marked)) == Ok(Join(NewOf(parts) + rest))
      <==> AllVisible(parts) && Anchored([], 0, parts)
  {
    hide Applied, Patch, ReadBack, OldOf, NewOf, AllVisible, Anchored, Join, TextOf, PrintParts, Plain;
    var marker := "\\ No newline at end of file";
    MarkerReads();
    var out := Patch(OldOf(parts) + rest, 0, ReadBack(parts, 0));
    var lines := NewOf(parts) + rest;
    AppliedInserted(f, parts, rest, k, marker);
    LandsAtStart(parts, rest);
    if out.Some? && out.value != lines && Join(out.value) == Join(lines) {
      PrintedPlain(parts, rest);
      JoinIs(out.value, lines);
      assert Count([""], "") == 1 && Count([], "") == 0;
      CountsOfOthers(parts, rest, "");
      assert false;
    }
  }

  lemma MarkerReads()
    ensures var marker := "\\ No newline at end of file";
      Plain(marker) && !StartsWith(marker, "@@ ") && ReadBodyLine(marker, false) == NoFinalNewline
  {
    var marker := "\\ No newline at end of file";
    assert marker[0] == '\\' && |marker| == 27;
  }

  /** Without that line, whatever a printed diff writes ends in a newline. */
  lemma UnmarkedEndsInNewline(f: Format, parts: seq<Part>, rest: seq<string>)
    requires Plain(f.section) && PlainChange(parts, rest)
    requires Applied(TextOf(OldOf(parts) + rest), DiffText(f, parts)).Ok?
    ensures var text := Applied(TextOf(OldOf(parts) + rest), DiffText(f, parts)).value;
      text != "" && text[|text| - 1] == '\n'
  {
    hide Applied, Patch, ReadBack, Join, TextOf, DiffText;
    AppliedPrinted(f, parts, rest);
  }

  /**
   * A newline that the new text has and the old one had not is lost: the marker behind the old text's last line already
   * takes it.
   */
  lemma AddedNewlineIsLost(f: Format, a: string, b: string)
    requires Plain(f.section) && Plain(a) && Plain(b) && !StartsWith(a, "-- ") && !StartsWith(b, "++ ") && a != ""
    ensures var parts := [Part([], [Drop(a), Add(b)])];
      && OldOf(parts) == [a] && NewOf(parts) == [b] && |PrintParts(f, parts, 0, 0)| == 3
      && Applied(Join([a]), TextOf(Insert(PrintParts(f, parts, 0, 0), 2, "\\ No newline at end of file"))) == Ok(b)
  {
    var parts := [Part([], [Drop(a), Add(b)])];
    var marker := "\\ No newline at end of file";
    hide Applied, TextOf, Header, CrLf, StartsWith;
    SidesOfTwo(a, b);
    assert parts[1..] == [];
    assert OldOf(parts) + [] == [a] && NewOf(parts) + [] == [b];
    assert AllVisible(parts) && Anchored([], 0, parts);
    MarkedDiffAppliesIff(f, parts, [], 2);
    MarkerReads();
    PartsPlain(f, parts, 0, 0);
    PlainInserted(PrintParts(f, parts, 0, 0), 2, marker);
    EndingsDoNotMatter([a], false, false, Insert(PrintParts(f, parts, 0, 0), 2, marker), false);
  }

  lemma SidesOfTwo(a: string, b: string)
    ensures OldSide([Drop(a), Add(b)]) == [a] && NewSide([Drop(a), Add(b)]) == [b]
    ensures PrintEdits([Drop(a), Add(b)]) == ["-" + a, "+" + b]
  {
    assert [Drop(a)] + [Add(b)] == [Drop(a), Add(b)] && [Add(b)] + [] == [Add(b)];
    SidesOfNone();
    EditsStep(Add(b), []);
    EditsStep(Drop(a), [Add(b)]);
    assert [Drop(a), Add(b)][1..] == [Add(b)] && [Add(b)][1..] == [];
    assert PrintEdits([Add(b)]) == ["+" + b];
  }

  /** A line that reads as a file header, anywhere behind the first header, is passed over. */
  lemma FileHeaderIsIgnored(f: Format, parts: seq<Part>, rest: seq<string>, k: nat, l: string)
    requires Plain(f.section) && PlainChange(parts, rest) && Plain(l) && 0 < k <= |PrintParts(f, parts, 0, 0)|
    requires StartsWith(l, "--- ") || StartsWith(l, "+++ ")
    ensures var plain := Applied(TextOf(OldOf(parts) + rest), DiffText(f, parts));
      var r := Applied(TextOf(OldOf(parts) + rest), TextOf(Insert(PrintParts(f, parts, 0, 0), k, l)));
      r.Ok? || plain.Ok? ==> r == plain
  {
    hide Applied, Patch, ReadBack, OldOf, NewOf, TextOf, DiffText, PrintParts;
    FileHeaderReads(l);
    AppliedInserted(f, parts, rest, k, l);
  }

  lemma FileHeaderReads(l: string)
    requires StartsWith(l, "--- ") || StartsWith(l, "+++ ")
    ensures !StartsWith(l, "@@ ") && ReadBodyLine(l, false) == Skipped
  {
    assert l[0] == '-' || l[0] == '+';
  }

  /** Any other line that is neither context nor a change, an empty one included, makes the diff unusable. */
  lemma ForeignLineIsRefused(f: Format, parts: seq<Part>, rest: seq<string>, k: nat, l: string)
    requires Plain(f.section) && PlainChange(parts, rest) && Plain(l) && 0 < k <= |PrintParts(f, parts, 0, 0)|
    requires l == "" || l[0] !in {' ', '-', '+', '@'}
    requires l != "\\ No newline at end of file"
    ensures Applied(TextOf(OldOf(parts) + rest), TextOf(Insert(PrintParts(f, parts, 0, 0), k, l))).Err?
  {
    hide Applied, Patch, ReadBack, OldOf, NewOf, TextOf, DiffText, PrintParts;
    AppliedInserted(f, parts, rest, k, l);
  }
}
