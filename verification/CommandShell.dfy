/** The shells, and the splitting of a command at the chain separators its grammar admits. */
module CommandShell {
  import opened Basics
  import opened CommandText

  datatype Grammar = Cmd | PowerShell | Posix | Neutral
  datatype ShellKind = KindCmd | WindowsPowerShell | Pwsh | PosixShell | ProviderUnknown
  datatype Shell = Shell(kind: ShellKind, grammar: Grammar)

  /** Which separators a command in this shell may be chained with. */
  predicate AdmitsSemicolon(shell: Shell) { shell.grammar == PowerShell || shell.grammar == Posix }

  predicate AdmitsDoubleAmp(shell: Shell) {
    match shell.grammar
    case Cmd => true
    case PowerShell => shell.kind == Pwsh
    case Posix => true
    case Neutral => false
  }

  /** The pieces between the separators, leftmost first, quotes or no quotes. */
  function SplitAt(s: string, semi: bool, amp: bool): (r: seq<string>)
    ensures |r| >= 1
  {
    if s == "" then [""]
    else if amp && "&&" <= s then [""] + SplitAt(s[2..], semi, amp)
    else if semi && s[0] == ';' then [""] + SplitAt(s[1..], semi, amp)
    else Prepend([s[0]], SplitAt(s[1..], semi, amp))
  }

  function Prepend(front: string, pieces: seq<string>): (r: seq<string>)
    requires |pieces| >= 1
    ensures |r| == |pieces|
  {
    [front + pieces[0]] + pieces[1..]
  }

  function Blanked(s: string, semi: bool, amp: bool): string {
    if s == "" then ""
    else if amp && "&&" <= s then " " + Blanked(s[2..], semi, amp)
    else if semi && s[0] == ';' then " " + Blanked(s[1..], semi, amp)
    else [s[0]] + Blanked(s[1..], semi, amp)
  }

  predicate Opens(c: char, g: Grammar) { c == '"' || (c == '\'' && g != Cmd) }

  /** The command outside quotes, each quoted span read as one space; None when a quote is left open. */
  function Outside(s: string, g: Grammar): Option<string> {
    if s == "" then Some("")
    else if Opens(s[0], g) then Inside(s[1..], s[0], g)
    else
      Prefixed([s[0]], Outside(s[1..], g))
  }

  function Inside(s: string, open: char, g: Grammar): Option<string> {
    if s == "" then None
    else if s[0] == open then
      if g == PowerShell && |s| > 1 && s[1] == open then Inside(s[2..], open, g)
      else Prefixed([' '], Outside(s[1..], g))
    else if s[0] == '\\' && open == '"' && g == Posix then if |s| > 1 then Inside(s[2..], open, g) else None
    else Inside(s[1..], open, g)
  }

  function Prefixed(out: string, rest: Option<string>): Option<string> {
    if rest == None then None else Some(out + rest.value)
  }

  lemma PrefixedStep(out: string, c: char, rest: Option<string>)
    ensures Prefixed(out, Prefixed([c], rest)) == Prefixed(out + [c], rest)
    ensures Prefixed("", rest) == rest
  {
    if rest.Some? {
      assert out + ([c] + rest.value) == out + [c] + rest.value;
      assert "" + rest.value == rest.value;
    }
  }

  /** The same as one loop over an index, with the open quote and the text so far. */
  method Unquoted(command: string, g: Grammar) returns (r: Option<string>)
    ensures r == Outside(command, g)
  {
    var out := "";
    var open: Option<char> := None;
    var index := 0;
    assert command[0..] == command;
    PrefixedStep("", ' ', Outside(command, g));
    while index < |command|
      invariant index <= |command| || (index == |command| + 1 && open.Some?)
      invariant Outside(command, g) ==
        Prefixed(out, if index > |command| then None
                      else if open.Some? then Inside(command[index..], open.value, g)
                      else Outside(command[index..], g))
      decreases |command| - index
    {
      var c := command[index];
      ghost var here := command[index..];
      assert here[1..] == command[index + 1..];
      assert |here| > 1 ==> here[2..] == command[index + 2..];
      if open.Some? {
        if c == open.value {
          if g == PowerShell && index + 1 < |command| && command[index + 1] == open.value {
            index := index + 2;
            continue;
          }
          PrefixedStep(out, ' ', Outside(here[1..], g));
          open := None;
          out := out + [' '];
        } else if c == '\\' && open.value == '"' && g == Posix {
          index := index + 1;
        }
        index := index + 1;
        continue;
      }
      if Opens(c, g) {
        open := Some(c);
      } else {
        PrefixedStep(out, c, Outside(here[1..], g));
        out := out + [c];
      }
      index := index + 1;
    }
    assert index == |command| ==> command[index..] == "";
    assert out + "" == out;
    r := if open.Some? then None else Some(out);
  }

  /** Constructs that are never matched silently, looked for in the whole command once its separators are blanked. */
  predicate UnsupportedAt(s: string, k: nat, g: Grammar)
    requires k < |s|
  {
    var c := s[k];
    match g
    case Cmd => c in "&|;<>()^%\n\r"
    case PowerShell => c in "&|<>()`{}$@\n\r"
    case Posix => c in "&|`<>()!\n\r" || (c == '$' && k + 1 < |s| && (s[k + 1] == '(' || s[k + 1] == '{'))
    case Neutral => c in "&|;`<>(){}$@%^!*?[]~\n\r"
  }

  predicate HasUnsupported(s: string, g: Grammar) { exists k :: 0 <= k < |s| && UnsupportedAt(s, k, g) }

  function TrimAll(pieces: seq<string>): (r: seq<string>)
    ensures |r| == |pieces|
    ensures forall k :: 0 <= k < |pieces| ==> r[k] == Trim(pieces[k])
  {
    seq(|pieces|, k requires 0 <= k < |pieces| => Trim(pieces[k]))
  }

  /** The pieces of a command that may match an allowlist without a prompt, or None when it holds anything else. */
  function AutoAllowSegments(command: string, shell: Shell): Option<seq<string>> {
    var text := Trim(command);
    if text == "" || Outside(text, shell.grammar) == None then None
    else
      var semi, amp := AdmitsSemicolon(shell), AdmitsDoubleAmp(shell);
      var pieces := if shell.grammar == Neutral then [text] else TrimAll(SplitAt(text, semi, amp));
      if "" in pieces || HasUnsupported(Blanked(text, semi, amp), shell.grammar) then None
      else Some(pieces)
  }
}
