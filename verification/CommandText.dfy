/** Text as the command policy reads it: trimming, lower case and prefixes. */
module CommandText {
  import opened Basics

  /** What the host's `trim` and `\s` take for white space. */
  predicate IsSpace(c: char) {
    || ('\t' <= c <= '\r') || c == ' ' || c == '\U{00A0}' || c == '\U{1680}' || ('\U{2000}' <= c <= '\U{200A}')
    || c == '\U{2028}' || c == '\U{2029}' || c == '\U{202F}' || c == '\U{205F}' || c == '\U{3000}' || c == '\U{FEFF}'
  }

  function TrimStart(s: string): (r: string)
    ensures |r| <= |s|
  {
    if s == "" || !IsSpace(s[0]) then s else TrimStart(s[1..])
  }

  function TrimEnd(s: string): (r: string)
    ensures r <= s
  {
    if s == "" || !IsSpace(s[|s| - 1]) then s else TrimEnd(s[..|s| - 1])
  }

  function Trim(s: string): string { TrimEnd(TrimStart(s)) }

  predicate IsQuote(c: char) { c == '"' || c == '\'' }

  lemma {:induction false} TrimStartSplits(s: string)
    ensures exists k :: 0 <= k <= |s| && TrimStart(s) == s[k..] && (forall i :: 0 <= i < k ==> IsSpace(s[i]))
    ensures TrimStart(s) != "" ==> !IsSpace(TrimStart(s)[0])
  {
    if s == "" || !IsSpace(s[0]) {
      assert s[0..] == s;
    } else {
      TrimStartSplits(s[1..]);
      var k :| 0 <= k <= |s[1..]| && TrimStart(s[1..]) == s[1..][k..]
          && (forall i :: 0 <= i < k ==> IsSpace(s[1..][i]));
      assert s[1..][k..] == s[k + 1..];
      assert forall i :: 0 < i < k + 1 ==> s[i] == s[1..][i - 1];
    }
  }

  /** Trimming a longer text keeps the trimmed beginning, when that beginning is not blank. */
  lemma {:induction false} TrimStartExtends(a: string, b: string)
    requires TrimStart(a) != ""
    ensures TrimStart(a + b) == TrimStart(a) + b
  {
    assert (a + b)[0] == a[0];
    if IsSpace(a[0]) {
      assert (a + b)[1..] == a[1..] + b;
      TrimStartExtends(a[1..], b);
    }
  }

  lemma {:induction false} TrimEndKeepsPrefix(a: string, b: string)
    requires TrimEnd(a) == a
    ensures a <= TrimEnd(a + b)
  {
    var s := a + b;
    if b == "" {
      assert s == a;
    } else if s != "" && IsSpace(s[|s| - 1]) {
      assert s[..|s| - 1] == a + b[..|b| - 1];
      TrimEndKeepsPrefix(a, b[..|b| - 1]);
    }
  }

  lemma {:induction false} TrimEndIdempotent(s: string)
    ensures TrimEnd(TrimEnd(s)) == TrimEnd(s)
  {
    if s != "" && IsSpace(s[|s| - 1]) {
      TrimEndIdempotent(s[..|s| - 1]);
    }
  }

  lemma TrimExtends(a: string, b: string)
    requires Trim(a) != ""
    ensures Trim(a) <= Trim(a + b)
  {
    var core := TrimStart(a);
    TrimStartExtends(a, b);
    var kept := TrimEnd(core);
    TrimEndIdempotent(core);
    assert core == kept + core[|kept|..];
    assert core + b == kept + (core[|kept|..] + b);
    TrimEndKeepsPrefix(kept, core[|kept|..] + b);
  }

  lemma LowerKeepsPrefix(a: string, b: string)
    requires a <= b
    ensures Lower(a) <= Lower(b)
  {
  }
}
