/**
 Java's `String.split(regex)` (limit 0) for the three separators the plugin
 uses: the single character `:`, and the two regular expressions of shape
 `\s+WORD\s+` with WORD either `=` or a backslash followed by `u0026`.
 No regular-expression engine is modelled; `MatchAt` gives the match that
 Java's backtracking matcher finds for these shapes.
 */
module Splitting {
  import opened Values

  /** Java's predefined class `\s`: space, tab, newline, vertical tab,
      form feed and carriage return. */
  predicate IsSpace(c: char) {
    c == ' ' || c == '\t' || c == '\n' || c == '\U{000B}' || c == '\U{000C}' || c == '\r'
  }

  /** A separator: a single literal character, or `\s+WORD\s+`. */
  datatype Separator = Char(c: char) | Spaced(word: string)

  /** The separator of `repoTag.split(":")`. */
  const Colon: Separator := Char(':')

  predicate NoSpace(s: string) {
    forall i :: 0 <= i < |s| ==> !IsSpace(s[i])
  }

  predicate AllSpace(s: string) {
    forall i :: 0 <= i < |s| ==> IsSpace(s[i])
  }

  /** End of the maximal run of whitespace that starts at `i`. */
  function RunEnd(s: string, i: nat): (j: nat)
    requires i <= |s|
    ensures i <= j <= |s|
    ensures AllSpace(s[i..j])
    ensures j == |s| || !IsSpace(s[j])
    decreases |s| - i
  {
    if i < |s| && IsSpace(s[i]) then RunEnd(s, i + 1) else i
  }

  /** Where a match of `sep` that starts at `i` ends, if one starts there.
      For `\s+WORD\s+` both runs are greedy: the first run must stop right
      before WORD, and the second takes every whitespace character after it. */
  function MatchAt(s: string, i: nat, sep: Separator): (r: Option<nat>)
    requires i <= |s|
    ensures r.Some? ==> i < r.value <= |s|
  {
    match sep
    case Char(c) => if i < |s| && s[i] == c then Some(i + 1) else None
    case Spaced(w) =>
      if i < |s| && IsSpace(s[i]) then
        var j := RunEnd(s, i);
        var k := j + |w|;
        if k < |s| && s[j..k] == w && IsSpace(s[k]) then Some(RunEnd(s, k)) else None
      else None
  }

  /** `s[i..e]` is a match of the regular expression `\s+WORD\s+`, with the
      word at `s[j..j + |w|]`. */
  predicate SpacedMatch(s: string, i: nat, j: nat, e: nat, w: string) {
    && i < j
    && j + |w| < e <= |s|
    && AllSpace(s[i..j])
    && s[j..j + |w|] == w
    && AllSpace(s[j + |w|..e])
  }

  /** What `MatchAt` finds is a match of the regular expression, and the
      longest one starting at `i`. */
  lemma MatchIsLongestRegexMatch(s: string, i: nat, w: string)
    requires i <= |s|
    requires MatchAt(s, i, Spaced(w)).Some?
    ensures SpacedMatch(s, i, RunEnd(s, i), MatchAt(s, i, Spaced(w)).value, w)
    ensures forall j: nat, e: nat :: SpacedMatch(s, i, j, e, w) ==> e <= MatchAt(s, i, Spaced(w)).value
  {
    var e := MatchAt(s, i, Spaced(w)).value;
    forall j: nat, e': nat | SpacedMatch(s, i, j, e', w)
      ensures e' <= e
    {
      RegexMatchFound(s, i, j, e', w);
    }
  }

  /** Every match of the regular expression at `i` is found by `MatchAt`,
      provided WORD does not start with whitespace (true of both words the
      plugin uses): the first run cannot stop early, since the character
      after a shorter run is whitespace and not WORD's first one. */
  lemma RegexMatchFound(s: string, i: nat, j: nat, e: nat, w: string)
    requires |w| > 0 && !IsSpace(w[0])
    requires SpacedMatch(s, i, j, e, w)
    ensures MatchAt(s, i, Spaced(w)) == Some(RunEnd(s, j + |w|))
    ensures e <= RunEnd(s, j + |w|)
  {
    assert IsSpace(s[i..j][0]);
    RunEndOf(s, i, j);
    RunEndOf(s, j + |w|, e);
  }

  /** The maximal run from `i` reaches at least `j` when `s[i..j]` is all
      whitespace, and stops at `j` when `s[j]` is not whitespace. */
  lemma {:induction false} RunEndOf(s: string, i: nat, j: nat)
    requires i <= j <= |s|
    requires AllSpace(s[i..j])
    ensures j <= RunEnd(s, i)
    ensures j < |s| && !IsSpace(s[j]) ==> RunEnd(s, i) == j
    decreases j - i
  {
    if i < j {
      assert IsSpace(s[i..j][0]);
      assert s[i + 1..j] == s[i..j][1..];
      RunEndOf(s, i + 1, j);
    }
  }

  /** A span `[start, end)` of a string. */
  datatype Span = Span(start: nat, end: nat)

  /** The leftmost match of `sep` at or after `from`: the search of
      `Matcher.find`. */
  function Find(s: string, sep: Separator, from: nat): (r: Option<Span>)
    requires from <= |s|
    ensures r.Some? ==> from <= r.value.start < r.value.end <= |s|
    ensures r.Some? ==> MatchAt(s, r.value.start, sep) == Some(r.value.end)
    ensures r.Some? ==> forall i :: from <= i < r.value.start ==> MatchAt(s, i, sep).None?
    ensures r.None? ==> forall i :: from <= i <= |s| ==> MatchAt(s, i, sep).None?
    decreases |s| - from
  {
    match MatchAt(s, from, sep)
    case Some(e) => Some(Span(from, e))
    case None => if from == |s| then None else Find(s, sep, from + 1)
  }

  /** The pieces between successive matches from `from` on, the last piece
      running to the end of the string. */
  function Pieces(s: string, sep: Separator, from: nat): (r: seq<string>)
    requires from <= |s|
    ensures |r| >= 1
    decreases |s| - from
  {
    match Find(s, sep, from)
    case None => [s[from..]]
    case Some(sp) => [s[from..sp.start]] + Pieces(s, sep, sp.end)
  }

  /** Removes the empty strings at the end of a list. */
  function DropTrailingEmpty(xs: seq<string>): (r: seq<string>)
    ensures r <= xs
    ensures |r| > 0 ==> r[|r| - 1] != ""
    ensures forall i :: |r| <= i < |xs| ==> xs[i] == ""
  {
    if |xs| > 0 && xs[|xs| - 1] == "" then DropTrailingEmpty(xs[..|xs| - 1]) else xs
  }

  /** `s.split(regex)`: when nothing matches, the whole string (even the
      empty one); otherwise the pieces without the trailing empty ones. */
  function Split(s: string, sep: Separator): seq<string> {
    if Find(s, sep, 0).None? then [s] else DropTrailingEmpty(Pieces(s, sep, 0))
  }

  /** The first element of a split is the text before the leftmost match. */
  lemma SplitHead(s: string, sep: Separator, c: nat)
    requires c <= |s|
    requires forall i :: 0 <= i < c ==> MatchAt(s, i, sep).None?
    requires c < |s| ==> MatchAt(s, c, sep).Some?
    requires |Split(s, sep)| > 0
    ensures Split(s, sep)[0] == s[..c]
  {
    if Find(s, sep, 0).Some? {
      assert Pieces(s, sep, 0)[0] == s[..c];
    }
  }

  /** A split comes out empty only when a match starts the string and
      every piece is empty. */
  lemma SplitEmpty(s: string, sep: Separator)
    requires Split(s, sep) == []
    ensures |s| > 0 && MatchAt(s, 0, sep).Some?
    ensures forall p :: p in Pieces(s, sep, 0) ==> p == ""
  {
    var ps := Pieces(s, sep, 0);
    var sp := Find(s, sep, 0).value;
    assert ps[0] == s[..sp.start] == "";
    forall p | p in ps
      ensures p == ""
    {
      var k :| 0 <= k < |ps| && ps[k] == p;
    }
  }

  /** If the first piece is not empty, the split keeps it. */
  lemma SplitKeepsNonEmptyHead(s: string, sep: Separator)
    requires Pieces(s, sep, 0)[0] != ""
    ensures |Split(s, sep)| > 0 && Split(s, sep)[0] == Pieces(s, sep, 0)[0]
  {
    if Find(s, sep, 0).None? {
      assert Pieces(s, sep, 0)[0] == s;
    }
  }

  /** Nothing matches `\s+WORD\s+` in a string without whitespace. */
  lemma NoSpaceNoMatch(s: string, w: string, from: nat)
    requires from <= |s|
    requires NoSpace(s[from..])
    ensures Find(s, Spaced(w), from).None?
    ensures Pieces(s, Spaced(w), from) == [s[from..]]
  {
    forall i | from <= i <= |s|
      ensures MatchAt(s, i, Spaced(w)).None?
    {
      if i < |s| {
        assert s[i] == s[from..][i - from];
      }
    }
  }

  /** Nothing matches `\s+WORD\s+` when WORD's first character does not occur. */
  lemma AbsentWordNoMatch(s: string, w: string)
    requires |w| > 0 && w[0] !in s
    ensures Find(s, Spaced(w), 0).None?
    ensures Split(s, Spaced(w)) == [s]
  {
    forall i | 0 <= i <= |s|
      ensures MatchAt(s, i, Spaced(w)).None?
    {
      if i < |s| && IsSpace(s[i]) {
        var j := RunEnd(s, i);
        if j < |s| {
          assert s[j] in s;
          assert s[j] != w[0];
        }
      }
    }
  }

  /** Joins strings with a one-character glue, as `String.join` does. */
  function Join(xs: seq<string>, glue: char): string {
    if |xs| == 0 then ""
    else if |xs| == 1 then xs[0]
    else xs[0] + [glue] + Join(xs[1..], glue)
  }

  /** Splitting on a character cuts the string at every occurrence of it:
      joining the pieces back with that character restores the string, and
      no piece contains it. */
  lemma {:induction false} CharPiecesJoin(s: string, c: char, from: nat)
    requires from <= |s|
    ensures Join(Pieces(s, Char(c), from), c) == s[from..]
    ensures forall p :: p in Pieces(s, Char(c), from) ==> c !in p
    decreases |s| - from
  {
    var ps := Pieces(s, Char(c), from);
    match Find(s, Char(c), from)
    case None =>
      assert forall i :: from <= i < |s| ==> MatchAt(s, i, Char(c)).None?;
      assert c !in s[from..] by {
        forall k | 0 <= k < |s[from..]|
          ensures s[from..][k] != c
        {
          assert MatchAt(s, from + k, Char(c)).None?;
        }
      }
    case Some(sp) =>
      var p := sp.start;
      var rest := Pieces(s, Char(c), p + 1);
      CharPiecesJoin(s, c, p + 1);
      assert ps == [s[from..p]] + rest;
      assert ps[1..] == rest;
      assert s[p] == c;
      assert c !in s[from..p] by {
        forall k | 0 <= k < p - from
          ensures s[from..p][k] != c
        {
          assert MatchAt(s, from + k, Char(c)).None?;
        }
      }
      assert s[from..] == s[from..p] + [c] + s[p + 1..];
  }

  /** A split on a character is empty exactly when the string is a
      non-empty run of that character. */
  lemma CharSplitEmptyIff(s: string, c: char)
    ensures Split(s, Char(c)) == [] <==> |s| > 0 && forall i :: 0 <= i < |s| ==> s[i] == c
  {
    if Split(s, Char(c)) == [] {
      SplitEmpty(s, Char(c));
      EmptyCharPieces(s, c, 0);
    }
    if |s| > 0 && forall i :: 0 <= i < |s| ==> s[i] == c {
      OnlyCharPieces(s, c, 0);
      assert MatchAt(s, 0, Char(c)).Some?;
      var ps := Pieces(s, Char(c), 0);
      var r := DropTrailingEmpty(ps);
      assert Find(s, Char(c), 0).Some?;
      if |r| > 0 {
        assert r[|r| - 1] == ps[|r| - 1];
        assert ps[|r| - 1] in ps;
      }
    }
  }

  /** Pieces that are all empty come from a run of the separator character. */
  lemma {:induction false} EmptyCharPieces(s: string, c: char, from: nat)
    requires from <= |s|
    requires forall p :: p in Pieces(s, Char(c), from) ==> p == ""
    ensures forall i :: from <= i < |s| ==> s[i] == c
    decreases |s| - from
  {
    var ps := Pieces(s, Char(c), from);
    assert ps[0] in ps;
    match Find(s, Char(c), from)
    case None =>
      assert s[from..] == "";
    case Some(sp) =>
      assert s[from..sp.start] == "";
      assert sp.start == from && s[from] == c;
      var rest := Pieces(s, Char(c), from + 1);
      assert ps == [""] + rest;
      forall p | p in rest
        ensures p == ""
      {
        assert p in ps;
      }
      EmptyCharPieces(s, c, from + 1);
  }

  /** A run of the separator character splits into empty pieces only. */
  lemma {:induction false} OnlyCharPieces(s: string, c: char, from: nat)
    requires from <= |s|
    requires forall i :: from <= i < |s| ==> s[i] == c
    ensures forall p :: p in Pieces(s, Char(c), from) ==> p == ""
    decreases |s| - from
  {
    if from == |s| {
      assert Find(s, Char(c), from).None?;
      assert s[from..] == "";
      assert Pieces(s, Char(c), from) == [""];
    } else {
      assert MatchAt(s, from, Char(c)) == Some(from + 1);
      assert Find(s, Char(c), from) == Some(Span(from, from + 1));
      assert s[from..from] == "";
      OnlyCharPieces(s, c, from + 1);
      assert Pieces(s, Char(c), from) == [""] + Pieces(s, Char(c), from + 1);
    }
  }

  /** A piece that follows a match of `\s+WORD\s+`: it starts with a
      non-whitespace character, or it is the empty last piece. */
  predicate LaterPiece(ps: seq<string>, k: nat)
    requires k < |ps|
  {
    (ps[k] != "" && !IsSpace(ps[k][0])) || (k == |ps| - 1 && ps[k] == "")
  }

  lemma {:induction false} PiecesFromNonSpace(s: string, w: string, from: nat)
    requires from <= |s|
    requires from == |s| || !IsSpace(s[from])
    ensures forall k :: 0 <= k < |Pieces(s, Spaced(w), from)| ==> LaterPiece(Pieces(s, Spaced(w), from), k)
    decreases |s| - from
  {
    var ps := Pieces(s, Spaced(w), from);
    match Find(s, Spaced(w), from)
    case None =>
      assert ps == [s[from..]];
    case Some(sp) =>
      assert sp.start != from;
      PiecesFromNonSpace(s, w, sp.end);
      var rest := Pieces(s, Spaced(w), sp.end);
      assert ps == [s[from..sp.start]] + rest;
      assert s[from..sp.start][0] == s[from];
      forall k | 1 <= k < |ps|
        ensures LaterPiece(ps, k)
      {
        assert ps[k] == rest[k - 1];
        assert LaterPiece(rest, k - 1);
      }
  }

  /** Every element of a `\s+WORD\s+` split after the first is non-empty
      and starts with a non-whitespace character. */
  lemma SpacedSplitLaterElements(s: string, w: string)
    ensures forall k :: 1 <= k < |Split(s, Spaced(w))| ==>
      Split(s, Spaced(w))[k] != "" && !IsSpace(Split(s, Spaced(w))[k][0])
  {
    match Find(s, Spaced(w), 0)
    case None =>
    case Some(sp) =>
      var ps := Pieces(s, Spaced(w), 0);
      var rest := Pieces(s, Spaced(w), sp.end);
      assert ps == [s[..sp.start]] + rest;
      var r := Split(s, Spaced(w));
      assert r == DropTrailingEmpty(ps);
      PiecesFromNonSpace(s, w, sp.end);
      forall k | 1 <= k < |r|
        ensures r[k] != "" && !IsSpace(r[k][0])
      {
        assert r[k] == ps[k] == rest[k - 1];
        assert LaterPiece(rest, k - 1);
        assert r[|r| - 1] == ps[|r| - 1];
      }
  }
}
