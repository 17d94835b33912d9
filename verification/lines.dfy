/**
 Reading a response body line by line with `BufferedReader.readLine` and
 appending every line to a `StringBuilder`, as the container-id extraction
 does before it looks for the identifier.
 */
module Lines {

  /** The characters `readLine` treats as line terminators. */
  predicate IsTerminator(c: char) {
    c == '\n' || c == '\r'
  }

  predicate NoTerminator(s: string) {
    '\n' !in s && '\r' !in s
  }

  /** Index of the first terminator at or after `i`, or `|t|` if none. */
  function LineEnd(t: string, i: nat): (j: nat)
    requires i <= |t|
    ensures i <= j <= |t|
    ensures NoTerminator(t[i..j])
    ensures j < |t| ==> IsTerminator(t[j])
    decreases |t| - i
  {
    if i == |t| || IsTerminator(t[i]) then i else LineEnd(t, i + 1)
  }

  /** The successive results of `readLine` until it returns `null`: a line
      ends at `\n`, at `\r`, or at the pair `\r\n`, which counts as one
      terminator; the terminator is not part of the line; text after the
      last terminator is a last line; nothing after it is no line at all. */
  function ReadLines(t: string): (lines: seq<string>)
    ensures forall k :: 0 <= k < |lines| ==> NoTerminator(lines[k])
    ensures |t| > 0 <==> |lines| > 0
    decreases |t|
  {
    if |t| == 0 then []
    else
      var j := LineEnd(t, 0);
      if j == |t| then [t]
      else if t[j] == '\r' && j + 1 < |t| && t[j + 1] == '\n' then [t[..j]] + ReadLines(t[j + 2..])
      else [t[..j]] + ReadLines(t[j + 1..])
  }

  /** Appending every line to one buffer. */
  function Concat(lines: seq<string>): string {
    if |lines| == 0 then "" else lines[0] + Concat(lines[1..])
  }

  /** The text with every line terminator removed. */
  function StripTerminators(t: string): string {
    if |t| == 0 then ""
    else (if IsTerminator(t[0]) then "" else [t[0]]) + StripTerminators(t[1..])
  }

  lemma {:induction false} StripAppend(a: string, b: string)
    ensures StripTerminators(a + b) == StripTerminators(a) + StripTerminators(b)
    decreases |a|
  {
    if |a| == 0 {
      assert a + b == b;
    } else {
      var h := if IsTerminator(a[0]) then "" else [a[0]];
      assert (a + b)[0] == a[0];
      assert (a + b)[1..] == a[1..] + b;
      assert StripTerminators(a + b) == h + StripTerminators(a[1..] + b);
      StripAppend(a[1..], b);
      assert StripTerminators(a) == h + StripTerminators(a[1..]);
    }
  }

  lemma {:induction false} StripKeeps(a: string)
    requires NoTerminator(a)
    ensures StripTerminators(a) == a
    decreases |a|
  {
    if |a| > 0 {
      StripKeeps(a[1..]);
      assert a == [a[0]] + a[1..];
    }
  }

  /** What the buffer holds after the read loop: the whole body without its
      line terminators, and nothing else. */
  lemma {:induction false} ReadLinesJoined(t: string)
    ensures Concat(ReadLines(t)) == StripTerminators(t)
    decreases |t|
  {
    if |t| > 0 {
      var j := LineEnd(t, 0);
      StripKeeps(t[..j]);
      if j == |t| {
        assert t[..j] == t;
        assert ReadLines(t) == [t];
        assert Concat([t]) == t + Concat([]);
      } else {
        var n := if t[j] == '\r' && j + 1 < |t| && t[j + 1] == '\n' then 2 else 1;
        var rest := t[j + n..];
        assert ReadLines(t) == [t[..j]] + ReadLines(rest);
        ReadLinesJoined(rest);
        ConcatCons(t[..j], ReadLines(rest));
        TerminatorSplit(t, j, n);
      }
    }
  }

  lemma ConcatCons(x: string, rest: seq<string>)
    ensures Concat([x] + rest) == x + Concat(rest)
  {
    assert ([x] + rest)[1..] == rest;
  }

  /** Stripping drops the terminator (one character, or the pair `\r\n`)
      that ends a line. */
  lemma {:induction false} TerminatorSplit(t: string, j: nat, n: nat)
    requires j + n <= |t| && 1 <= n <= 2
    requires NoTerminator(t[..j])
    requires IsTerminator(t[j]) && (n == 2 ==> IsTerminator(t[j + 1]))
    ensures StripTerminators(t) == t[..j] + StripTerminators(t[j + n..])
    decreases j
  {
    if j > 0 {
      var u := t[1..];
      assert NoTerminator(u[..j - 1]) by {
        assert u[..j - 1] == t[..j][1..];
      }
      TerminatorSplit(u, j - 1, n);
      assert u[j - 1 + n..] == t[j + n..];
      assert !IsTerminator(t[0]) by {
        assert t[..j][0] == t[0];
      }
      assert StripTerminators(t) == [t[0]] + StripTerminators(u);
      assert t[..j] == [t[0]] + u[..j - 1];
    } else if n == 2 {
      assert t[1..][1..] == t[2..];
    }
  }
}
