/** Line splitting and joining as the host does it: `\r\n` read as `\n`, then one line per `\n`. */
module TextLines {
  function NormalizeNewlines(s: string): string {
    if s == [] then []
    else if |s| >= 2 && s[0] == '\r' && s[1] == '\n' then ['\n'] + NormalizeNewlines(s[2..])
    else [s[0]] + NormalizeNewlines(s[1..])
  }

  function Split(s: string): (ls: seq<string>)
    ensures |ls| >= 1
  {
    if s == [] then [""]
    else
      var rest := Split(s[1..]);
      if s[0] == '\n' then [""] + rest else [[s[0]] + rest[0]] + rest[1..]
  }

  function Join(ls: seq<string>): string {
    if ls == [] then "" else if |ls| == 1 then ls[0] else ls[0] + "\n" + Join(ls[1..])
  }

  /** The newline-terminated text of these lines. */
  function TextOf(ls: seq<string>): string {
    if ls == [] then "" else ls[0] + "\n" + TextOf(ls[1..])
  }

  /** A line of an LF text: it holds no line feed and does not end in a carriage return. */
  predicate Plain(l: string) {
    '\n' !in l && (l != "" ==> l[|l| - 1] != '\r')
  }

  ghost predicate AllPlain(ls: seq<string>) { forall l <- ls :: Plain(l) }

  lemma {:induction false} SplitLine(l: string, s: string)
    requires '\n' !in l
    ensures Split(l + "\n" + s) == [l] + Split(s)
  {
    var t := l + "\n" + s;
    if l == "" {
      assert t[1..] == s;
    } else {
      assert t[0] == l[0] && l[0] in l;
      assert t[1..] == l[1..] + "\n" + s;
      SplitLine(l[1..], s);
      assert [l[0]] + l[1..] == l;
    }
  }

  lemma {:induction false} SplitTextOf(ls: seq<string>)
    requires AllPlain(ls)
    ensures Split(TextOf(ls)) == ls + [""]
  {
    if ls != [] {
      assert Plain(ls[0]);
      SplitLine(ls[0], TextOf(ls[1..]));
      SplitTextOf(ls[1..]);
    }
  }

  lemma {:induction false} NormalizeLine(l: string, s: string)
    requires Plain(l)
    ensures NormalizeNewlines(l + "\n" + s) == l + "\n" + NormalizeNewlines(s)
  {
    var t := l + "\n" + s;
    if l == "" {
      assert t[1..] == s;
    } else {
      assert t[0] == l[0] && t[1..] == l[1..] + "\n" + s;
      assert |l| > 1 ==> t[1] == l[1];
      assert l[1..] != "" ==> l[1..][|l[1..]| - 1] == l[|l| - 1];
      NormalizeLine(l[1..], s);
    }
  }

  lemma {:induction false} NormalizeTextOf(ls: seq<string>)
    requires AllPlain(ls)
    ensures NormalizeNewlines(TextOf(ls)) == TextOf(ls)
  {
    if ls != [] {
      assert Plain(ls[0]);
      NormalizeLine(ls[0], TextOf(ls[1..]));
      NormalizeTextOf(ls[1..]);
    }
  }

  lemma {:induction false} JoinIsTextOf(ls: seq<string>)
    requires ls != []
    ensures Join(ls) + "\n" == TextOf(ls)
  {
    if |ls| > 1 {
      JoinIsTextOf(ls[1..]);
    }
  }

  lemma TextOfInjective(a: seq<string>, b: seq<string>)
    requires AllPlain(a) && AllPlain(b) && TextOf(a) == TextOf(b)
    ensures a == b
  {
    SplitTextOf(a);
    SplitTextOf(b);
    assert (a + [""])[..|a|] == a && (b + [""])[..|b|] == b;
  }

  lemma {:induction false} TextOfEndsInNewline(ls: seq<string>)
    requires ls != []
    ensures TextOf(ls) != "" && TextOf(ls)[|TextOf(ls)| - 1] == '\n'
  {
    if |ls| > 1 {
      TextOfEndsInNewline(ls[1..]);
    } else {
      assert TextOf(ls[1..]) == "";
    }
  }

  /** The text with every line feed as a carriage return and a line feed. */
  function CrLf(s: string): string {
    if s == "" then "" else (if s[0] == '\n' then "\r\n" else [s[0]]) + CrLf(s[1..])
  }

  /** Reading the line ends of any text undoes that. */
  lemma {:induction false} NormalizeCrLf(s: string)
    ensures NormalizeNewlines(CrLf(s)) == s
  {
    if s != "" {
      var t := CrLf(s[1..]);
      NormalizeCrLf(s[1..]);
      if s[0] == '\n' {
        assert CrLf(s) == ['\r', '\n'] + t && CrLf(s)[2..] == t;
      } else {
        assert CrLf(s) == [s[0]] + t && CrLf(s)[1..] == t;
        assert t != "" ==> t[0] != '\n';
      }
      assert [s[0]] + s[1..] == s;
    }
  }

  lemma {:induction false} SplitNoFeed(l: string)
    requires '\n' !in l
    ensures Split(l) == [l]
  {
    if l != "" {
      assert l[0] in l;
      SplitNoFeed(l[1..]);
      assert [l[0]] + l[1..] == l;
    }
  }

  lemma {:induction false} SplitJoin(ls: seq<string>)
    requires AllPlain(ls) && ls != []
    ensures Split(Join(ls)) == ls
  {
    assert Plain(ls[0]);
    if |ls| == 1 {
      SplitNoFeed(ls[0]);
    } else {
      SplitLine(ls[0], Join(ls[1..]));
      SplitJoin(ls[1..]);
    }
  }

  lemma {:induction false} NormalizeNoFeed(l: string)
    requires '\n' !in l
    ensures NormalizeNewlines(l) == l
  {
    if l != "" {
      assert |l| > 1 ==> l[1] in l;
      NormalizeNoFeed(l[1..]);
      assert [l[0]] + l[1..] == l;
    }
  }

  lemma {:induction false} NormalizeJoin(ls: seq<string>)
    requires AllPlain(ls)
    ensures NormalizeNewlines(Join(ls)) == Join(ls)
  {
    if |ls| == 1 {
      assert Plain(ls[0]);
      NormalizeNoFeed(ls[0]);
    } else if ls != [] {
      assert Plain(ls[0]);
      NormalizeLine(ls[0], Join(ls[1..]));
      NormalizeJoin(ls[1..]);
    }
  }

  /** A joined text ends as its last line does. */
  lemma {:induction false} JoinEnds(ls: seq<string>)
    requires ls != [] && ls[|ls| - 1] != ""
    ensures var l := ls[|ls| - 1]; Join(ls) != "" && Join(ls)[|Join(ls)| - 1] == l[|l| - 1]
  {
    if |ls| > 1 { JoinEnds(ls[1..]); }
  }
}
