/**
 Extraction of the new container's identifier from the body of the
 creation response (`GetContainerId`). The body is not decoded as JSON:
 its lines are joined, the text is cut at the first `\s+\\u0026\s+`, the
 first part is split on `\s+=\s+`, and the second field, if any, is the
 identifier.
 */
module ContainerId {
  import opened Values
  import opened Splitting
  import Lines

  /** The regular expression `\s+\\u0026\s+`: whitespace, one backslash,
      the letters `u0026`, whitespace. */
  const IdSeparator: Separator := Spaced("\\u0026")

  /** The regular expression `\s+=\s+`. */
  const FieldSeparator: Separator := Spaced("=")

  /** The response body as the extraction sees it: a null stream, a stream
      whose reading fails, or the text it delivers. */
  datatype BodyStream = NullStream | ReadFails | Body(text: string)

  /** The two splits applied to the joined body text. `parts[0]` of an
      empty split throws; fewer than two fields give `null`. */
  function ExtractId(text: string): Try<JString> {
    var parts := Split(text, IdSeparator);
    if |parts| == 0 then Threw
    else
      var fields := Split(parts[0], FieldSeparator);
      if |fields| > 1 then Returned(NonNull(fields[1])) else Returned(Null)
  }

  /** `GetContainerId(resultsStream)`: a null stream and a failing read
      throw; otherwise the identifier is extracted from the body with all
      its line terminators removed. */
  function GetContainerId(stream: BodyStream): (r: Try<JString>)
    ensures stream.Body? ==> r == ExtractId(Lines.StripTerminators(stream.text))
    ensures !stream.Body? ==> r == Threw
  {
    match stream
    case NullStream => Threw
    case ReadFails => Threw
    case Body(t) =>
      Lines.ReadLinesJoined(t);
      ExtractId(Lines.Concat(Lines.ReadLines(t)))
  }

  /** The extraction can only throw on a text that starts with whitespace:
      otherwise the first part of the cut is never empty. */
  lemma ThrowsOnlyOnLeadingSpace(text: string)
    requires ExtractId(text) == Threw
    ensures |text| > 0 && IsSpace(text[0])
  {
    SplitEmpty(text, IdSeparator);
  }

  /** A text that is nothing but the separator throws. */
  lemma SeparatorAloneThrows()
    ensures ExtractId(" \\u0026 ") == Threw
  {
    var s := " \\u0026 ";
    RunEndOf(s, 0, 1);
    RunEndOf(s, 7, 8);
    assert s[1..7] == "\\u0026";
    assert MatchAt(s, 0, IdSeparator) == Some(8);
    assert Find(s, IdSeparator, 0) == Some(Span(0, 8));
    assert Find(s, IdSeparator, 8).None?;
    assert s[8..] == "";
    assert Pieces(s, IdSeparator, 8) == [""];
    assert Pieces(s, IdSeparator, 0) == ["", ""];
  }

  /** A returned identifier is never empty and never starts with whitespace. */
  lemma IdNotEmpty(text: string)
    requires ExtractId(text).Returned? && ExtractId(text).value.NonNull?
    ensures ExtractId(text).value.value != ""
    ensures !IsSpace(ExtractId(text).value.value[0])
  {
    var parts := Split(text, IdSeparator);
    SpacedSplitLaterElements(parts[0], "=");
  }

  /** A body without whitespace (a compact JSON object, as a Docker engine
      sends) yields no identifier: the result is `null`. */
  lemma CompactBodyGivesNull(text: string)
    requires NoSpace(text)
    ensures ExtractId(text) == Returned(Null)
  {
    NoSpaceNoMatch(text, "\\u0026", 0);
    NoSpaceNoMatch(text, "=", 0);
  }

  /** The layout the extraction is written for: a key, ` = `, the
      identifier, then the six characters `\u0026` between whitespace, and
      anything after. The identifier comes back exactly. */
  lemma {:induction false} CanonicalLayout(key: string, id: string, rest: string)
    requires NoSpace(key) && NoSpace(id) && id != "" && id[0] != '\\'
    ensures ExtractId(key + " = " + id + " \\u0026 " + rest) == Returned(NonNull(id))
  {
    var head := key + " = " + id;
    var s := head + " \\u0026 " + rest;
    assert s == key + " = " + id + " \\u0026 " + rest;
    SeparatorAfter(head, rest);
    NoSeparatorBefore(key, id, rest);
    assert s[..|head|] == head;
    var sp := Find(s, IdSeparator, 0).value;
    assert sp.start == |head|;
    assert Pieces(s, IdSeparator, 0)[0] == head;
    SplitKeepsNonEmptyHead(s, IdSeparator);
    FieldSplit(key, id);
  }

  /** The separator written after `head` matches there. */
  lemma {:induction false} SeparatorAfter(head: string, rest: string)
    ensures MatchAt(head + " \\u0026 " + rest, |head|, IdSeparator).Some?
  {
    var s := head + " \\u0026 " + rest;
    var p := |head|;
    assert s[p] == ' ' && s[p + 1..p + 7] == "\\u0026" && s[p + 7] == ' ';
    RunEndOf(s, p, p + 1);
  }

  /** Nothing matches the separator inside `key = id`. */
  lemma {:induction false} NoSeparatorBefore(key: string, id: string, rest: string)
    requires NoSpace(key) && NoSpace(id) && id != "" && id[0] != '\\'
    ensures forall i :: 0 <= i < |key| + 3 + |id| ==> MatchAt(key + " = " + id + " \\u0026 " + rest, i, IdSeparator).None?
  {
    var s := key + " = " + id + " \\u0026 " + rest;
    var n := |key|;
    var p := n + 3 + |id|;
    assert forall i :: 0 <= i < n ==> s[i] == key[i];
    assert forall i :: n + 3 <= i < p ==> s[i] == id[i - n - 3];
    assert s[n] == ' ' && s[n + 1] == '=' && s[n + 2] == ' ' && s[n + 3] == id[0];
    RunEndOf(s, n, n + 1);
    RunEndOf(s, n + 2, n + 3);
    forall i | 0 <= i < p
      ensures MatchAt(s, i, IdSeparator).None?
    {
      if i == n {
        assert s[n + 1..n + 7][0] == '=';
      } else if i == n + 2 {
        assert s[n + 3..n + 9][0] == id[0];
      } else if i < n {
        assert !IsSpace(key[i]);
      } else if n + 3 <= i {
        assert !IsSpace(id[i - n - 3]);
      }
    }
  }

  /** A reply in that layout, with its line terminators anywhere after the
      separator, gives back the identifier. */
  lemma {:induction false} CanonicalReply(key: string, id: string, rest: string)
    requires NoSpace(key) && NoSpace(id) && id != "" && id[0] != '\\'
    ensures GetContainerId(Body(key + " = " + id + " \\u0026 " + rest)) == Returned(NonNull(id))
  {
    var head := key + " = " + id + " \\u0026 ";
    assert Lines.NoTerminator(head) by {
      assert forall c :: c in head && c != ' ' && c != '=' && c != '\\' && c !in "u0026" ==> c in key || c in id;
    }
    Lines.StripAppend(head, rest);
    Lines.StripKeeps(head);
    assert key + " = " + id + " \\u0026 " + rest == head + rest;
    assert head + Lines.StripTerminators(rest) == key + " = " + id + " \\u0026 " + Lines.StripTerminators(rest);
    CanonicalLayout(key, id, Lines.StripTerminators(rest));
  }

  /** The field split of `key = id` when neither side holds whitespace. */
  lemma {:induction false} FieldSplit(key: string, id: string)
    requires NoSpace(key) && NoSpace(id) && id != ""
    ensures Split(key + " = " + id, FieldSeparator) == [key, id]
  {
    var f := key + " = " + id;
    var n := |key|;
    assert forall i :: 0 <= i < n ==> f[i] == key[i];
    assert f[n] == ' ' && f[n + 1] == '=' && f[n + 2] == ' ' && f[n + 3] == id[0];
    assert f[n + 1..n + 2] == "=";
    assert f[n + 3..] == id;
    RunEndOf(f, n, n + 1);
    RunEndOf(f, n + 2, n + 3);
    forall i | 0 <= i < n
      ensures MatchAt(f, i, FieldSeparator).None?
    {
      assert !IsSpace(key[i]);
    }
    assert MatchAt(f, n, FieldSeparator) == Some(n + 3);
    assert Find(f, FieldSeparator, 0) == Some(Span(n, n + 3));
    NoSpaceNoMatch(f, "=", n + 3);
    assert f[..n] == key;
    assert Pieces(f, FieldSeparator, 0) == [key, id];
  }

  /** Only the second field is returned: `a = b = c` gives `b`. */
  lemma OnlySecondField(s: string)
    requires s == "a = b = c"
    ensures ExtractId(s) == Returned(NonNull("b"))
  {
    AbsentWordNoMatch(s, "\\u0026");
    ThreeFields(s);
  }

  lemma ThreeFields(s: string)
    requires s == "a = b = c"
    ensures Split(s, FieldSeparator) == ["a", "b", "c"]
  {
    FirstField(s);
    SecondField(s);
    NoSpaceNoMatch(s, "=", 8);
    assert s[8..] == "c";
    assert Pieces(s, FieldSeparator, 8) == ["c"];
    assert s[4..5] == "b" && s[0..1] == "a";
    assert Pieces(s, FieldSeparator, 4) == ["b", "c"];
    assert Pieces(s, FieldSeparator, 0) == ["a", "b", "c"];
  }

  lemma FirstField(s: string)
    requires s == "a = b = c"
    ensures Find(s, FieldSeparator, 0) == Some(Span(1, 4))
  {
    RunEndOf(s, 1, 2);
    RunEndOf(s, 3, 4);
    assert s[2..3] == "=";
    assert MatchAt(s, 0, FieldSeparator).None?;
    assert MatchAt(s, 1, FieldSeparator) == Some(4);
  }

  lemma SecondField(s: string)
    requires s == "a = b = c"
    ensures Find(s, FieldSeparator, 4) == Some(Span(5, 8))
  {
    RunEndOf(s, 5, 6);
    RunEndOf(s, 7, 8);
    assert s[6..7] == "=";
    assert MatchAt(s, 4, FieldSeparator).None?;
    assert MatchAt(s, 5, FieldSeparator) == Some(8);
  }
}
