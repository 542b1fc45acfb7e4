/**
 * Applying a unified diff: headers are found by their form, hunk bodies are read line by line against the source, and
 * the result is written back with a final newline unless the diff says there is none.
 */
module UnifiedDiff {
  import opened Basics
  import opened TextLines
  import opened EditScripts

  datatype DiffError = HunkOutsideFile | ContextMismatch | UnsupportedLine | NoHunk

  const NO_NEWLINE_MARKER := "\\ No newline at end of file"

  predicate IsDigit(c: char) { '0' <= c <= '9' }

  function DigitRun(s: string): (n: nat)
    ensures n <= |s|
    ensures forall k :: 0 <= k < n ==> IsDigit(s[k])
    ensures n < |s| ==> !IsDigit(s[n])
  {
    if s == "" || !IsDigit(s[0]) then 0 else DigitRun(s[1..]) + 1
  }

  function Number(digits: string): nat
    requires forall c <- digits :: IsDigit(c)
  {
    if digits == "" then 0
    else
      assert IsDigit(digits[|digits| - 1]);
      10 * Number(digits[..|digits| - 1]) + (digits[|digits| - 1] as int - '0' as int)
  }

  predicate StartsWith(s: string, prefix: string) { prefix <= s }

  /** A start, and a count that is read and ignored: the number, and the text behind both. */
  function ReadRange(s: string): Option<(nat, string)> {
    var d := DigitRun(s);
    if d == 0 then None
    else
      var rest := s[d..];
      if StartsWith(rest, ",") && DigitRun(rest[1..]) > 0
      then Some((Number(s[..d]), rest[1..][DigitRun(rest[1..])..]))
      else Some((Number(s[..d]), rest))
  }

  /** The old start of a hunk header, or None for any other line. */
  function ReadHeader(line: string): Option<nat> {
    if !StartsWith(line, "@@ -") then None
    else match ReadRange(line[4..])
      case None => None
      case Some((oldStart, rest)) =>
        if !StartsWith(rest, " +") then None
        else match ReadRange(rest[2..])
          case None => None
          case Some((_, end)) => if StartsWith(end, " @@") then Some(oldStart) else None
  }

  /** The line position a header's old start stands for: its count is ignored. */
  function HunkStart(oldStart: nat): nat { if oldStart == 0 then 0 else oldStart - 1 }

  datatype BodyLine = Skipped | NoFinalNewline | Change(edit: Edit) | Unsupported

  function ReadBodyLine(line: string, last: bool): BodyLine {
    if StartsWith(line, "--- ") || StartsWith(line, "+++ ") then Skipped
    else if line == NO_NEWLINE_MARKER then NoFinalNewline
    else if line == "" then if last then Skipped else Unsupported
    else if line[0] == ' ' then Change(Keep(line[1..]))
    else if line[0] == '-' then Change(Drop(line[1..]))
    else if line[0] == '+' then Change(Add(line[1..]))
    else Unsupported
  }

  /** Where the interpreter stands: the lines written, the source lines read, and the final-newline flag. */
  datatype Cursor = Cursor(output: seq<string>, at: nat, noFinalNewline: bool)

  function ApplyEdit(source: seq<string>, cur: Cursor, e: Edit): (r: Result<Cursor, DiffError>)
    ensures r.Ok? && cur.at <= |source| ==> r.value.at <= |source|
  {
    if e.Add? then Ok(cur.(output := cur.output + [e.line]))
    else if cur.at < |source| && source[cur.at] == e.line then
      Ok(cur.(output := if e.Keep? then cur.output + [e.line] else cur.output, at := cur.at + 1))
    else Err(ContextMismatch)
  }

  function ApplyBody(source: seq<string>, lines: seq<string>, i: nat,
      cur: Cursor): (r: Result<(Cursor, nat), DiffError>)
    requires i <= |lines|
    ensures r.Ok? ==> i <= r.value.1 <= |lines| && (cur.at <= |source| ==> r.value.0.at <= |source|)
    decreases |lines| - i
  {
    if i == |lines| || StartsWith(lines[i], "@@ ") then Ok((cur, i))
    else
      match ReadBodyLine(lines[i], i == |lines| - 1)
      case Skipped => ApplyBody(source, lines, i + 1, cur)
      case NoFinalNewline => ApplyBody(source, lines, i + 1, cur.(noFinalNewline := true))
      case Unsupported => Err(UnsupportedLine)
      case Change(e) =>
        match ApplyEdit(source, cur, e)
        case Err(x) => Err(x)
        case Ok(next) => ApplyBody(source, lines, i + 1, next)
  }

  function ApplyHunks(source: seq<string>, lines: seq<string>, i: nat, cur: Cursor,
      sawHunk: bool): Result<Cursor, DiffError>
    requires i <= |lines| && cur.at <= |source|
    decreases |lines| - i
  {
    if i == |lines| then
      if sawHunk then Ok(cur.(output := cur.output + source[cur.at..])) else Err(NoHunk)
    else
      match ReadHeader(lines[i])
      case None => ApplyHunks(source, lines, i + 1, cur, sawHunk)
      case Some(oldStart) =>
        var start := HunkStart(oldStart);
        if start < cur.at || start > |source| then Err(HunkOutsideFile)
        else
          var placed := Cursor(cur.output + source[cur.at..start], start, cur.noFinalNewline);
          match ApplyBody(source, lines, i + 1, placed)
          case Err(x) => Err(x)
          case Ok((next, j)) => ApplyHunks(source, lines, j, next, true)
  }

  function SourceLines(before: string): seq<string> {
    var ls := Split(NormalizeNewlines(before));
    if before == "" || before[|before| - 1] == '\n' then ls[..|ls| - 1] else ls
  }

  function Written(cur: Cursor): string {
    if cur.noFinalNewline then Join(cur.output) else Join(cur.output) + "\n"
  }

  /** The text the diff turns `before` into, or why it does not apply. */
  function Applied(before: string, diff: string): Result<string, DiffError> {
    match ApplyHunks(SourceLines(before), Split(NormalizeNewlines(diff)), 0, Cursor([], 0, false), false)
    case Err(x) => Err(x)
    case Ok(cur) => Ok(Written(cur))
  }

  /** The interpreter as the host runs it: one index over the diff's lines, shared by both loops. */
  method ApplyUnifiedDiff(before: string, diff: string) returns (r: Result<string, DiffError>)
    ensures r == Applied(before, diff)
  {
    hide ApplyBody, ApplyHunks, ReadHeader, Join;
    var diffLines := Split(NormalizeNewlines(diff));
    var beforeHadNewline := before != "" && before[|before| - 1] == '\n';
    var source := Split(NormalizeNewlines(before));
    if beforeHadNewline {
      source := source[..|source| - 1];
    }
    if |source| == 1 && source[0] == "" && |before| == 0 {
      source := source[..|source| - 1];
    }
    var cur :- RunHunks(source, diffLines);
    r := Ok(if cur.noFinalNewline then Join(cur.output) else Join(cur.output) + "\n");
  }

  /** The outer loop: skip to the next header, write the untouched lines in front of its hunk, and run the body. */
  method RunHunks(source: seq<string>, diffLines: seq<string>) returns (r: Result<Cursor, DiffError>)
    ensures r == ApplyHunks(source, diffLines, 0, Cursor([], 0, false), false)
  {
    hide ApplyBody, ReadHeader;
    var cur := Cursor([], 0, false);
    var sawHunk := false;
    var index := 0;
    while index < |diffLines|
      invariant index <= |diffLines| && cur.at <= |source|
      invariant ApplyHunks(source, diffLines, index, cur, sawHunk)
             == ApplyHunks(source, diffLines, 0, Cursor([], 0, false), false)
      decreases |diffLines| - index
    {
      var header := ReadHeader(diffLines[index]);
      if header == None {
        index := index + 1;
        continue;
      }
      sawHunk := true;
      var hunkStart := if header.value == 0 then 0 else header.value - 1;
      if hunkStart < cur.at || hunkStart > |source| {
        return Err(HunkOutsideFile);
      }
      cur := Cursor(cur.output + source[cur.at..hunkStart], hunkStart, cur.noFinalNewline);
      var next :- RunBody(source, diffLines, index + 1, cur);
      cur, index := next.0, next.1;
    }
    if !sawHunk {
      return Err(NoHunk);
    }
    r := Ok(cur.(output := cur.output + source[cur.at..]));
  }

  /** The inner loop: one hunk's body, up to the next header or the end. */
  method RunBody(source: seq<string>, diffLines: seq<string>, first: nat, placed: Cursor)
      returns (r: Result<(Cursor, nat), DiffError>)
    requires first <= |diffLines| && placed.at <= |source|
    ensures r == ApplyBody(source, diffLines, first, placed)
  {
    hide StartsWith;
    var index := first;
    var output, noFinalNewline := placed.output, placed.noFinalNewline;
    var sourceIndex: nat := placed.at;
    while index < |diffLines| && !StartsWith(diffLines[index], "@@ ")
      invariant index <= |diffLines| && sourceIndex <= |source|
      invariant ApplyBody(source, diffLines, index, Cursor(output, sourceIndex, noFinalNewline))
             == ApplyBody(source, diffLines, first, placed)
      decreases |diffLines| - index
    {
      var line := diffLines[index];
      var last := index == |diffLines| - 1;
      index := index + 1;
      if StartsWith(line, "--- ") || StartsWith(line, "+++ ") {
        continue;
      }
      if line == NO_NEWLINE_MARKER {
        noFinalNewline := true;
        continue;
      }
      if line == "" && last {
        continue;
      }
      if line == "" {
        return Err(UnsupportedLine);
      }
      var prefix, text := line[0], line[1..];
      if prefix == ' ' || prefix == '-' {
        if sourceIndex >= |source| || source[sourceIndex] != text {
          return Err(ContextMismatch);
        }
        if prefix == ' ' {
          output := output + [text];
        }
        sourceIndex := sourceIndex + 1;
      } else if prefix == '+' {
        output := output + [text];
      } else {
        return Err(UnsupportedLine);
      }
    }
    r := Ok((Cursor(output, sourceIndex, noFinalNewline), index));
  }
}
