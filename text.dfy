/**
 * The string-splitting primitives of Rust's standard library that the puzzle
 * parsers use: `split` on a separator, `lines`, `split_ascii_whitespace` and
 * `split_once`. Only their results are modelled. Also the shape condition
 * shared by the letter grids of day 4 and day 6.
 */
module Text {
  import opened Wrappers

  /** `s.split(|b| seps.contains(b))`: the pieces between separators, so that
      n separators always give n + 1 pieces (some of them possibly empty). */
  function SplitOn(s: string, seps: set<char>): (pieces: seq<string>)
    ensures |pieces| >= 1
    ensures forall i :: 0 <= i < |pieces| ==> forall ch :: ch in pieces[i] ==> ch !in seps
    decreases |s|
  {
    if s == [] then [""]
    else
      var rest := SplitOn(s[1..], seps);
      if s[0] in seps then [""] + rest
      else [[s[0]] + rest[0]] + rest[1..]
  }

  /** The inverse of `SplitOn` for a single separator: pieces glued back with `sep`. */
  function Join(pieces: seq<string>, sep: char): string
    requires |pieces| >= 1
  {
    if |pieces| == 1 then pieces[0] else pieces[0] + [sep] + Join(pieces[1..], sep)
  }

  /** Number of occurrences of `ch` in `s`. */
  function Occurrences(s: string, ch: char): nat
  {
    multiset(s)[ch]
  }

  /** Splitting and joining again gives back the original text. */
  lemma {:induction false} JoinSplit(s: string, sep: char)
    ensures Join(SplitOn(s, {sep}), sep) == s
    decreases |s|
  {
    if s != [] {
      var rest := SplitOn(s[1..], {sep});
      JoinSplit(s[1..], sep);
      if s[0] == sep {
        assert SplitOn(s, {sep}) == [""] + rest;
        assert ([""] + rest)[1..] == rest;
      } else {
        var ps := [[s[0]] + rest[0]] + rest[1..];
        assert SplitOn(s, {sep}) == ps;
        if |rest| == 1 {
          assert Join(ps, sep) == [s[0]] + rest[0];
        } else {
          assert ps[1..] == rest[1..];
          assert Join(rest, sep) == rest[0] + [sep] + Join(rest[1..], sep);
        }
        assert s == [s[0]] + s[1..];
      }
    }
  }

  /** Joining separator-free pieces and splitting again gives back the pieces. */
  lemma {:induction false} SplitJoin(pieces: seq<string>, sep: char)
    requires |pieces| >= 1
    requires forall i :: 0 <= i < |pieces| ==> sep !in pieces[i]
    ensures SplitOn(Join(pieces, sep), {sep}) == pieces
    decreases |pieces|, |pieces[0]|
  {
    if |pieces| == 1 {
      SplitOfSepFree(pieces[0], sep);
    } else if pieces[0] == [] {
      SplitJoin(pieces[1..], sep);
      var j := Join(pieces, sep);
      assert j == [sep] + Join(pieces[1..], sep);
      assert j[1..] == Join(pieces[1..], sep);
      assert pieces == [""] + pieces[1..];
    } else {
      var head := pieces[0];
      var shorter := [head[1..]] + pieces[1..];
      assert shorter[1..] == pieces[1..];
      SplitJoin(shorter, sep);
      var j := Join(pieces, sep);
      assert j == [head[0]] + Join(shorter, sep);
      assert j[1..] == Join(shorter, sep);
      assert [head[0]] + head[1..] == head;
    }
  }

  lemma {:induction false} SplitOfSepFree(s: string, sep: char)
    requires sep !in s
    ensures SplitOn(s, {sep}) == [s]
    decreases |s|
  {
    if s != [] {
      SplitOfSepFree(s[1..], sep);
      assert [s[0]] + s[1..] == s;
    }
  }

  /** n separators give n + 1 pieces. */
  lemma {:induction false} SplitCount(s: string, sep: char)
    ensures |SplitOn(s, {sep})| == Occurrences(s, sep) + 1
    decreases |s|
  {
    if s != [] {
      SplitCount(s[1..], sep);
      assert s == [s[0]] + s[1..];
      assert multiset(s) == multiset{s[0]} + multiset(s[1..]);
    }
  }

  /** `str::lines`: split at `\n`, drop the empty piece after a final `\n`
      (so the empty text has no lines), and remove the `\r` of a `\r\n`. A
      `\r` that no `\n` follows stays in the last line. */
  function Lines(s: string): (lines: seq<string>)
    ensures forall i :: 0 <= i < |lines| ==> '\n' !in lines[i]
    ensures var pieces := SplitOn(s, {'\n'});
      |lines| == if pieces[|pieces| - 1] == [] then |pieces| - 1 else |pieces|
    ensures var pieces := SplitOn(s, {'\n'});
      forall i :: 0 <= i < |lines| ==>
        lines[i] == pieces[i] || (i < |pieces| - 1 && lines[i] + ['\r'] == pieces[i])
    ensures var pieces := SplitOn(s, {'\n'});
      forall i :: 0 <= i < |pieces| - 1 && pieces[i] != [] && pieces[i][|pieces[i]| - 1] == '\r' ==>
        lines[i] + ['\r'] == pieces[i]
    ensures var pieces := SplitOn(s, {'\n'});
      |lines| == |pieces| ==> lines[|lines| - 1] == pieces[|pieces| - 1]
  {
    var pieces := SplitOn(s, {'\n'});
    var lines := LinesOf(pieces);
    assert forall i :: 0 <= i < |lines| ==> '\n' !in lines[i] by {
      forall i | 0 <= i < |lines| ensures '\n' !in lines[i] {
        assert '\n' !in pieces[i];
        assert lines[i] == pieces[i] || lines[i] + ['\r'] == pieces[i];
        assert lines[i] <= pieces[i];
      }
    }
    lines
  }

  /** The lines of the pieces between `\n`s: every piece but the last loses
      a final `\r`, and the last piece is dropped when it is empty. */
  function LinesOf(pieces: seq<string>): (lines: seq<string>)
    requires pieces != []
    ensures |lines| == if pieces[|pieces| - 1] == [] then |pieces| - 1 else |pieces|
    ensures forall i :: 0 <= i < |lines| ==>
      lines[i] == pieces[i] || (i < |pieces| - 1 && lines[i] + ['\r'] == pieces[i])
    ensures forall i :: 0 <= i < |pieces| - 1 && pieces[i] != [] && pieces[i][|pieces[i]| - 1] == '\r' ==>
      lines[i] + ['\r'] == pieces[i]
    ensures |lines| == |pieces| ==> lines[|lines| - 1] == pieces[|pieces| - 1]
  {
    var n := |pieces| - 1;
    var lines := StripCarriageReturns(pieces[..n]) + if pieces[n] == [] then [] else [pieces[n]];
    assert forall i :: 0 <= i < n ==> lines[i] == StripCarriageReturn(pieces[i]);
    assert |lines| > n ==> lines[n] == pieces[n];
    lines
  }

  /** A text without `\n` is one line, kept whole even when it ends in `\r`. */
  lemma OneLine(s: string)
    requires s != [] && '\n' !in s
    ensures Lines(s) == [s]
  {
    SplitOfSepFree(s, '\n');
  }

  /** A line ended by `\r\n` loses both. */
  lemma CrLfLine(s: string)
    requires '\n' !in s
    ensures Lines(s + "\r\n") == [s]
  {
    var pieces := [s + ['\r'], []];
    assert Join(pieces, '\n') == s + "\r\n";
    SplitJoin(pieces, '\n');
  }

  function StripCarriageReturns(pieces: seq<string>): (lines: seq<string>)
    ensures |lines| == |pieces|
    ensures forall i :: 0 <= i < |pieces| ==> lines[i] == StripCarriageReturn(pieces[i])
  {
    if pieces == [] then []
    else [StripCarriageReturn(pieces[0])] + StripCarriageReturns(pieces[1..])
  }

  function StripCarriageReturn(line: string): (r: string)
    ensures r <= line
    ensures forall ch :: ch in r ==> ch in line
    ensures r == line || r + ['\r'] == line
  {
    if |line| > 0 && line[|line| - 1] == '\r' then line[..|line| - 1] else line
  }

  /** The characters `split_ascii_whitespace` splits at. */
  const AsciiWhitespace: set<char> := {' ', '\t', '\n', '\U{0C}', '\r'}

  /** The non-empty pieces, in order (`.filter(|v| !v.is_empty())`). */
  function NonEmpty(pieces: seq<string>): (r: seq<string>)
    ensures |r| <= |pieces|
    ensures forall i :: 0 <= i < |r| ==> r[i] != [] && r[i] in pieces
  {
    if pieces == [] then []
    else if pieces[0] == [] then NonEmpty(pieces[1..])
    else [pieces[0]] + NonEmpty(pieces[1..])
  }

  /** `str::split_ascii_whitespace`: the maximal runs of non-whitespace. */
  function Words(s: string): (words: seq<string>)
    ensures forall i :: 0 <= i < |words| ==> words[i] != [] && forall ch :: ch in words[i] ==> ch !in AsciiWhitespace
  {
    NonEmpty(SplitOn(s, AsciiWhitespace))
  }

  /** `pat` occurs in `s` starting at index `j`. */
  predicate OccursAt(s: string, pat: string, j: nat)
  {
    j + |pat| <= |s| && s[j..j + |pat|] == pat
  }

  /** The first index at or after `from` where `pat` occurs, if any. */
  function FindFrom(s: string, pat: string, from: nat): (k: Option<nat>)
    requires |pat| > 0
    ensures k.Some? ==> from <= k.value && OccursAt(s, pat, k.value)
    ensures k.Some? ==> forall j :: from <= j < k.value ==> !OccursAt(s, pat, j)
    ensures k.None? ==> forall j :: from <= j ==> !OccursAt(s, pat, j)
    decreases |s| - from
  {
    if from + |pat| > |s| then None
    else if OccursAt(s, pat, from) then Some(from)
    else FindFrom(s, pat, from + 1)
  }

  /** `str::split_once(pat)`: the text before and after the first `pat`. */
  function SplitOnce(s: string, pat: string): (r: Option<(string, string)>)
    requires |pat| > 0
    ensures r.Some? ==> s == r.value.0 + pat + r.value.1
    ensures r.Some? ==> forall j :: 0 <= j < |r.value.0| ==> !OccursAt(s, pat, j)
    ensures r.None? ==> forall j :: 0 <= j ==> !OccursAt(s, pat, j)
  {
    match FindFrom(s, pat, 0)
    case None => None
    case Some(k) =>
      assert s == s[..k] + s[k..k + |pat|] + s[k + |pat|..];
      Some((s[..k], s[k + |pat|..]))
  }

  /** A grid of lines (src/day04.rs, src/day06.rs) whose every row is at least
      as wide as the first, so indexing `m[r][c]` never panics for a column
      that a bounds test against `m[0].len()` lets through. */
  predicate WideRows(m: seq<string>)
  {
    |m| > 0 && forall r :: 0 <= r < |m| ==> |m[r]| >= |m[0]|
  }
}
