/** Edit scripts over lines, and the patching of a source by hunks placed at line positions. */
module EditScripts {
  import opened Basics

  datatype Edit = Keep(line: string) | Drop(line: string) | Add(line: string)

  function OldSide(es: seq<Edit>): seq<string> {
    if es == [] then [] else (if es[0].Add? then [] else [es[0].line]) + OldSide(es[1..])
  }

  function NewSide(es: seq<Edit>): seq<string> {
    if es == [] then [] else (if es[0].Drop? then [] else [es[0].line]) + NewSide(es[1..])
  }

  function InvertEdit(e: Edit): Edit {
    match e
    case Keep(l) => Keep(l)
    case Drop(l) => Add(l)
    case Add(l) => Drop(l)
  }

  function Invert(es: seq<Edit>): (r: seq<Edit>)
    ensures |r| == |es|
    ensures OldSide(r) == NewSide(es) && NewSide(r) == OldSide(es)
  {
    if es == [] then [] else [InvertEdit(es[0])] + Invert(es[1..])
  }

  /** One hunk as parsed: the line position it acts at, and its edits. */
  datatype Hunk = Hunk(start: nat, edits: seq<Edit>)

  /** The lines from position `at` on, patched by these hunks; None when one of them does not fit. */
  function Patch(lines: seq<string>, at: nat, hunks: seq<Hunk>): Option<seq<string>>
    decreases |hunks|
  {
    if hunks == [] then Some(lines)
    else
      var h := hunks[0];
      var gone := OldSide(h.edits);
      if h.start < at || h.start - at > |lines| then None
      else
        var gap, behind := lines[..h.start - at], lines[h.start - at..];
        if !(gone <= behind) then None
        else
          match Patch(behind[|gone|..], h.start + |gone|, hunks[1..])
          case None => None
          case Some(out) => Some(gap + NewSide(h.edits) + out)
  }

  lemma PatchNone(lines: seq<string>, at: nat)
    ensures Patch(lines, at, []) == Some(lines)
  {
  }

  /** One hunk's part of the patching, with the lines given as what is in front of it, its old side and the rest. */
  lemma PatchHunk(gap: seq<string>, tail: seq<string>, at: nat, h: Hunk, more: seq<Hunk>)
    requires h.start == at + |gap|
    ensures var next := Patch(tail, h.start + |OldSide(h.edits)|, more);
      Patch(gap + OldSide(h.edits) + tail, at, [h] + more)
        == if next.Some? then Some(gap + NewSide(h.edits) + next.value) else None
  {
    hide OldSide, NewSide, Patch;
    var gone := OldSide(h.edits);
    var lines := gap + gone + tail;
    assert lines == gap + (gone + tail);
    Sides(gap, gone + tail);
    Sides(gone, tail);
    Sides([h], more);
    PatchStep(lines, at, [h] + more);
  }

  lemma PatchStep(lines: seq<string>, at: nat, hunks: seq<Hunk>)
    requires hunks != [] && at <= hunks[0].start && hunks[0].start - at <= |lines|
    requires OldSide(hunks[0].edits) <= lines[hunks[0].start - at..]
    ensures var h := hunks[0];
      var gone := OldSide(h.edits);
      var next := Patch(lines[h.start - at..][|gone|..], h.start + |gone|, hunks[1..]);
      Patch(lines, at, hunks)
        == if next.Some? then Some(lines[..h.start - at] + NewSide(h.edits) + next.value) else None
  {
    hide OldSide, NewSide;
  }

  lemma Sides<T>(a: seq<T>, b: seq<T>)
    ensures (a + b)[..|a|] == a && (a + b)[|a|..] == b && a <= a + b
  {
  }

  /** A file change laid out over the whole file: each hunk behind the untouched lines in front of it. */
  datatype Part = Part(gap: seq<string>, edits: seq<Edit>)

  function OldOf(parts: seq<Part>): seq<string> {
    if parts == [] then [] else parts[0].gap + OldSide(parts[0].edits) + OldOf(parts[1..])
  }

  function NewOf(parts: seq<Part>): seq<string> {
    if parts == [] then [] else parts[0].gap + NewSide(parts[0].edits) + NewOf(parts[1..])
  }

  function InvertParts(parts: seq<Part>): (r: seq<Part>)
    ensures |r| == |parts|
    ensures OldOf(r) == NewOf(parts) && NewOf(r) == OldOf(parts)
  {
    if parts == [] then [] else [Part(parts[0].gap, Invert(parts[0].edits))] + InvertParts(parts[1..])
  }

  lemma PartsCons(p: Part, more: seq<Part>, rest: seq<string>)
    ensures OldOf([p] + more) + rest == p.gap + OldSide(p.edits) + (OldOf(more) + rest)
    ensures NewOf([p] + more) + rest == p.gap + NewSide(p.edits) + (NewOf(more) + rest)
    ensures OldOf([]) + rest == rest == NewOf([]) + rest
  {
    hide OldSide, NewSide;
    assert ([p] + more)[1..] == more;
  }

  /** Each part carries its hunk's edits, and starts where the hunk says when the first line is line `at`. */
  ghost predicate Placed(at: nat, hunks: seq<Hunk>, parts: seq<Part>)
    decreases |hunks|
  {
    && |parts| == |hunks|
    && (hunks != [] ==>
          && parts[0].edits == hunks[0].edits
          && at + |parts[0].gap| == hunks[0].start
          && Placed(hunks[0].start + |OldSide(hunks[0].edits)|, hunks[1..], parts[1..]))
  }

  /** The lines from `at` on are these parts' old side and an untouched rest, with every hunk at its position. */
  ghost predicate Explains(lines: seq<string>, at: nat, hunks: seq<Hunk>, parts: seq<Part>, rest: seq<string>) {
    Placed(at, hunks, parts) && lines == OldOf(parts) + rest
  }

  ghost predicate Fits(lines: seq<string>, at: nat, hunks: seq<Hunk>) {
    exists parts, rest :: Explains(lines, at, hunks, parts, rest)
  }

  /**
   * Patching succeeds exactly when the lines can be read as untouched ones and the hunks' old sides, each at its
   * hunk's position; the result is then that reading with every hunk's new side in place of its old one.
   */
  lemma PatchMeaning(lines: seq<string>, at: nat, hunks: seq<Hunk>)
    ensures Patch(lines, at, hunks).Some? <==> Fits(lines, at, hunks)
    ensures forall parts, rest :: Explains(lines, at, hunks, parts, rest) ==>
      Patch(lines, at, hunks) == Some(NewOf(parts) + rest)
  {
    forall parts, rest | Explains(lines, at, hunks, parts, rest)
      ensures Patch(lines, at, hunks) == Some(NewOf(parts) + rest)
    {
      PlacedIsPatched(at, hunks, parts, rest);
    }
    if Fits(lines, at, hunks) {
      var parts, rest :| Explains(lines, at, hunks, parts, rest);
    }
    if Patch(lines, at, hunks).Some? {
      var parts, rest := PatchedIsExplained(lines, at, hunks);
      assert Explains(lines, at, hunks, parts, rest);
    }
  }

  lemma {:induction false} PlacedIsPatched(at: nat, hunks: seq<Hunk>, parts: seq<Part>, rest: seq<string>)
    requires Placed(at, hunks, parts)
    ensures Patch(OldOf(parts) + rest, at, hunks) == Some(NewOf(parts) + rest)
    decreases |hunks|
  {
    hide OldSide, NewSide, OldOf, NewOf, Patch;
    if hunks == [] {
      PatchNone(OldOf(parts) + rest, at);
      PartsCons(Part([], []), [], rest);
    } else {
      var h, p := hunks[0], parts[0];
      assert [h] + hunks[1..] == hunks && [p] + parts[1..] == parts;
      PartsCons(p, parts[1..], rest);
      PatchHunk(p.gap, OldOf(parts[1..]) + rest, at, h, hunks[1..]);
      PlacedIsPatched(h.start + |OldSide(h.edits)|, hunks[1..], parts[1..], rest);
    }
  }

  lemma {:induction false} PatchedIsExplained(lines: seq<string>, at: nat, hunks: seq<Hunk>)
    returns (parts: seq<Part>, rest: seq<string>)
    requires Patch(lines, at, hunks).Some?
    ensures Explains(lines, at, hunks, parts, rest)
    decreases |hunks|
  {
    hide OldSide, NewSide, OldOf, NewOf, Patch;
    if hunks == [] {
      parts, rest := [], lines;
      PartsCons(Part([], []), [], rest);
    } else {
      var h := hunks[0];
      assert [h] + hunks[1..] == hunks;
      var gap, tail := PatchedHunk(lines, at, h, hunks[1..]);
      var more;
      more, rest := PatchedIsExplained(tail, h.start + |OldSide(h.edits)|, hunks[1..]);
      PartsCons(Part(gap, h.edits), more, rest);
      parts := [Part(gap, h.edits)] + more;
      assert parts[1..] == more;
    }
  }

  lemma PatchedHunk(lines: seq<string>, at: nat, h: Hunk, more: seq<Hunk>) returns (gap: seq<string>, tail: seq<string>)
    requires Patch(lines, at, [h] + more).Some?
    ensures at + |gap| == h.start && lines == gap + OldSide(h.edits) + tail
    ensures Patch(tail, h.start + |OldSide(h.edits)|, more).Some?
  {
    hide OldSide, NewSide;
    assert ([h] + more)[1..] == more;
    gap := lines[..h.start - at];
    var behind := lines[h.start - at..];
    tail := behind[|OldSide(h.edits)|..];
    Halves(lines, h.start - at);
    Halves(behind, |OldSide(h.edits)|);
    assert behind[..|OldSide(h.edits)|] == OldSide(h.edits);
    assert gap + (OldSide(h.edits) + tail) == gap + OldSide(h.edits) + tail;
  }

  lemma Halves(s: seq<string>, k: nat)
    requires k <= |s|
    ensures s[..k] + s[k..] == s
  {
  }
}
