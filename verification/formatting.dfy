/**
 The part of Java's `String.format` the plugin uses: templates whose only
 conversion is `%s`, filled left to right from an argument list.
 */
module Formatting {
  import opened Values

  /** Every `%` in the template starts a `%s` conversion. */
  predicate WellFormed(t: string)
    decreases |t|
  {
    if |t| == 0 then true
    else if t[0] == '%' then |t| >= 2 && t[1] == 's' && WellFormed(t[2..])
    else WellFormed(t[1..])
  }

  /** Number of `%s` holes in a template. */
  function Holes(t: string): nat
    decreases |t|
  {
    if |t| == 0 then 0
    else if t[0] == '%' && |t| >= 2 then 1 + Holes(t[2..])
    else Holes(t[1..])
  }

  /** `String.format(t, args...)`: each `%s` is replaced by the next argument,
      rendered with `Render`; surplus arguments are ignored, as Java does. */
  function Format(t: string, args: seq<JString>): string
    requires WellFormed(t) && Holes(t) <= |args|
    decreases |t|
  {
    if |t| == 0 then ""
    else if t[0] == '%' then Render(args[0]) + Format(t[2..], args[1..])
    else [t[0]] + Format(t[1..], args)
  }

  /** A template without `%` is copied verbatim. */
  lemma {:induction false} FormatLiteral(t: string, args: seq<JString>)
    requires '%' !in t
    ensures WellFormed(t) && Holes(t) == 0
    ensures Format(t, args) == t
    decreases |t|
  {
    if |t| > 0 {
      assert '%' !in t[1..];
      FormatLiteral(t[1..], args);
      assert t == [t[0]] + t[1..];
    }
  }

  /** Prefixing a literal run changes neither well-formedness nor the hole count. */
  lemma {:induction false} LiteralPrefix(a: string, t: string)
    requires '%' !in a
    ensures WellFormed(a + t) <==> WellFormed(t)
    ensures Holes(a + t) == Holes(t)
    decreases |a|
  {
    if |a| > 0 {
      assert '%' !in a[1..];
      LiteralPrefix(a[1..], t);
      assert (a + t)[0] == a[0] && a[0] != '%';
      assert (a + t)[1..] == a[1..] + t;
    } else {
      assert a + t == t;
    }
  }

  /** A `%s` hole after a literal run takes the first argument; the rest of
      the template is formatted with the remaining ones. */
  lemma {:induction false} FormatHole(a: string, b: string, x: JString, rest: seq<JString>)
    requires '%' !in a
    requires WellFormed(b) && Holes(b) <= |rest|
    ensures WellFormed(a + "%s" + b) && Holes(a + "%s" + b) == 1 + Holes(b)
    ensures Format(a + "%s" + b, [x] + rest) == a + Render(x) + Format(b, rest)
    decreases |a|
  {
    var h := "%s" + b;
    assert h[2..] == b;
    assert ([x] + rest)[1..] == rest;
    LiteralPrefix(a, h);
    assert a + "%s" + b == a + h;
    FormatLiteralPrefix(a, h, [x] + rest);
  }

  /** Formatting passes a literal run through unchanged. */
  lemma {:induction false} FormatLiteralPrefix(a: string, t: string, args: seq<JString>)
    requires '%' !in a
    requires WellFormed(t) && Holes(t) <= |args|
    ensures WellFormed(a + t) && Holes(a + t) == Holes(t)
    ensures Format(a + t, args) == a + Format(t, args)
    decreases |a|
  {
    LiteralPrefix(a, t);
    if |a| == 0 {
      assert a + t == t;
    } else {
      var u := a + t;
      assert '%' !in a[1..];
      assert u[1..] == a[1..] + t;
      FormatLiteralPrefix(a[1..], t, args);
      LiteralPrefix(a[1..], t);
      assert u[0] == a[0] && a[0] != '%';
      assert Format(u, args) == [a[0]] + Format(u[1..], args);
      assert Format(u[1..], args) == a[1..] + Format(t, args);
      assert a == [a[0]] + a[1..];
    }
  }

  /** A template that ends with its only hole. */
  lemma EndHole(a: string, x: JString)
    requires '%' !in a
    ensures WellFormed(a + "%s") && Holes(a + "%s") == 1
    ensures Format(a + "%s", [x]) == a + Render(x)
  {
    FormatLiteral("", []);
    FormatHole(a, "", x, []);
    assert a + "%s" + "" == a + "%s";
    assert [x] + [] == [x];
  }

  /** A template with one hole between two literal runs. */
  lemma OneHole(a: string, b: string, x: JString)
    requires '%' !in a && '%' !in b
    ensures WellFormed(a + "%s" + b) && Holes(a + "%s" + b) == 1
    ensures Format(a + "%s" + b, [x]) == a + Render(x) + b
  {
    FormatLiteral(b, []);
    FormatHole(a, b, x, []);
    assert [x] + [] == [x];
  }

  /** A template with two holes, the second at its end. */
  lemma TwoHoles(a: string, b: string, x: JString, y: JString)
    requires '%' !in a && '%' !in b
    ensures WellFormed(a + "%s" + b + "%s") && Holes(a + "%s" + b + "%s") == 2
    ensures Format(a + "%s" + b + "%s", [x, y]) == a + Render(x) + b + Render(y)
  {
    EndHole(b, y);
    FormatHole(a, b + "%s", x, [y]);
    assert a + "%s" + (b + "%s") == a + "%s" + b + "%s";
    assert [x] + [y] == [x, y];
  }

  /** A template with three holes, the third at its end. */
  lemma ThreeHoles(a: string, b: string, c: string, x: JString, y: JString, z: JString)
    requires '%' !in a && '%' !in b && '%' !in c
    ensures WellFormed(a + "%s" + (b + "%s" + (c + "%s")))
    ensures Holes(a + "%s" + (b + "%s" + (c + "%s"))) == 3
    ensures Format(a + "%s" + (b + "%s" + (c + "%s")), [x, y, z]) == a + Render(x) + (b + Render(y) + (c + Render(z)))
  {
    EndHole(c, z);
    FormatHole(b, c + "%s", y, [z]);
    assert [y] + [z] == [y, z];
    FormatHole(a, b + "%s" + (c + "%s"), x, [y, z]);
    assert [x] + [y, z] == [x, y, z];
  }

  lemma Regroup(p: string, q: string, r: string, s: string, t: string, u: string)
    ensures p + q + (r + s + (t + u)) == p + q + r + s + t + u
  {
  }

  /** `String.format(a + "%s" + b, x)` for literal runs `a` and `b`. */
  function FormatOne(a: string, b: string, x: JString): (r: string)
    requires '%' !in a && '%' !in b
    ensures r == a + Render(x) + b
  {
    OneHole(a, b, x);
    Format(a + "%s" + b, [x])
  }

  /** `String.format(a + "%s" + b + "%s", x, y)` for literal runs `a` and `b`. */
  function FormatTwo(a: string, b: string, x: JString, y: JString): (r: string)
    requires '%' !in a && '%' !in b
    ensures r == a + Render(x) + b + Render(y)
  {
    TwoHoles(a, b, x, y);
    Format(a + "%s" + b + "%s", [x, y])
  }

  /** `String.format(a + "%s" + b + "%s" + c + "%s", x, y, z)` for literal
      runs `a`, `b` and `c`. */
  function FormatThree(a: string, b: string, c: string, x: JString, y: JString, z: JString): (r: string)
    requires '%' !in a && '%' !in b && '%' !in c
    ensures r == a + Render(x) + b + Render(y) + c + Render(z)
  {
    ThreeHoles(a, b, c, x, y, z);
    Regroup(a, Render(x), b, Render(y), c, Render(z));
    Format(a + "%s" + (b + "%s" + (c + "%s")), [x, y, z])
  }
}
