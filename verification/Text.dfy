/** Strings: their order, decimal numbers in them, and fixed-width layouts of numbers. */
module Text {
  import opened Wrappers
  import opened Seqs

  /** Comparison character by character, as string operators and sorts do it. */
  predicate Before(a: string, b: string) {
    if b == [] then false
    else if a == [] then true
    else a[0] < b[0] || (a[0] == b[0] && Before(a[1..], b[1..]))
  }

  predicate AtOrBefore(a: string, b: string) { !Before(b, a) }

  lemma {:induction false} BeforeIsStrict(a: string, b: string)
    ensures !(Before(a, b) && Before(b, a))
    ensures a == b || Before(a, b) || Before(b, a)
    ensures a == b ==> !Before(a, b)
  {
    if a != [] && b != [] {
      BeforeIsStrict(a[1..], b[1..]);
      assert a == [a[0]] + a[1..] && b == [b[0]] + b[1..];
    }
  }

  lemma {:induction false} BeforeIsTransitive(a: string, b: string, c: string)
    requires Before(a, b) && Before(b, c)
    ensures Before(a, c)
  {
    if a != [] && a[0] == b[0] == c[0] {
      BeforeIsTransitive(a[1..], b[1..], c[1..]);
    }
  }

  lemma {:induction false} AtOrBeforeIsTransitive(a: string, b: string, c: string)
    requires AtOrBefore(a, b) && AtOrBefore(b, c)
    ensures AtOrBefore(a, c)
  {
    BeforeIsStrict(a, b);
    BeforeIsStrict(b, c);
    if Before(c, a) {
      if Before(a, b) {
        BeforeIsTransitive(c, a, b);
      }
    }
  }

  /** Behind equally long heads only the first difference counts. */
  lemma {:induction false} BeforeAfterHead(a: string, p: string, b: string, q: string)
    requires |a| == |b|
    ensures Before(a + p, b + q) <==> Before(a, b) || (a == b && Before(p, q))
  {
    if a == [] {
      assert a + p == p && b + q == q;
    } else {
      assert (a + p)[1..] == a[1..] + p && (b + q)[1..] == b[1..] + q;
      assert a == [a[0]] + a[1..] && b == [b[0]] + b[1..];
      BeforeAfterHead(a[1..], p, b[1..], q);
    }
  }

  /** The texts agree up to an index, where the first is the lesser. */
  ghost predicate DiffersAt(a: string, b: string, i: nat) {
    i < |a| && i < |b| && a[..i] == b[..i] && a[i] < b[i]
  }

  lemma {:induction false} DifferenceDecides(a: string, b: string, i: nat)
    requires DiffersAt(a, b, i)
    ensures Before(a, b)
  {
    if i > 0 {
      assert a[0] == a[..i][0] && b[0] == b[..i][0];
      assert a[1..][..i - 1] == a[..i][1..] && b[1..][..i - 1] == b[..i][1..];
      DifferenceDecides(a[1..], b[1..], i - 1);
    }
  }

  /** Of two texts of one length, the lesser differs at some index. */
  lemma {:induction false} FirstDifference(a: string, b: string) returns (i: nat)
    requires Before(a, b) && |a| == |b|
    ensures DiffersAt(a, b, i)
  {
    if a[0] < b[0] {
      i := 0;
    } else {
      i := FirstDifference(a[1..], b[1..]);
      assert a[..i + 1] == [a[0]] + a[1..][..i] && b[..i + 1] == [b[0]] + b[1..][..i];
      i := i + 1;
    }
  }

  lemma {:induction false} TextOrderIsTotal()
    ensures Total(AtOrBefore) && Transitive(AtOrBefore)
  {
    forall a, b ensures AtOrBefore(a, b) || AtOrBefore(b, a) {
      BeforeIsStrict(a, b);
    }
    forall a, b, c | AtOrBefore(a, b) && AtOrBefore(b, c) ensures AtOrBefore(a, c) {
      AtOrBeforeIsTransitive(a, b, c);
    }
  }

  /** Sorting distinct texts lists them in strictly ascending order. */
  lemma {:induction false} SortedTextsAscend(s: seq<string>)
    requires Distinct(s)
    ensures var r := SortBy(AtOrBefore, s);
            && (forall k :: k in r <==> k in s) && Distinct(r)
            && forall i, j :: 0 <= i < j < |r| ==> Before(r[i], r[j])
  {
    var r := SortBy(AtOrBefore, s);
    TextOrderIsTotal();
    SortSorts(AtOrBefore, s);
    SortPermutes(AtOrBefore, s);
    DistinctPermutes(s, r);
    forall i, j | 0 <= i < j < |r| ensures Before(r[i], r[j]) {
      BeforeIsStrict(r[i], r[j]);
    }
  }

  predicate Contains(s: string, part: string) { part <= s || (s != [] && Contains(s[1..], part)) }

  /** A part is contained when there is something, or nothing, around it. */
  lemma {:induction false} ContainsMeans(s: string, part: string)
    ensures Contains(s, part) <==> exists a, b :: s == a + part + b
  {
    if Contains(s, part) {
      var a, b := AroundPart(s, part);
    }
    forall a, b | s == a + part + b ensures Contains(s, part) {
      PartIsContained(a, part, b);
    }
  }

  lemma {:induction false} AroundPart(s: string, part: string) returns (a: string, b: string)
    requires Contains(s, part)
    ensures s == a + part + b
  {
    if part <= s {
      a, b := "", s[|part|..];
    } else {
      a, b := AroundPart(s[1..], part);
      a := [s[0]] + a;
    }
  }

  lemma {:induction false} PartIsContained(a: string, part: string, b: string)
    ensures Contains(a + part + b, part)
  {
    if a == [] {
      assert a + part + b == part + b && part <= part + b;
    } else {
      PartIsContained(a[1..], part, b);
      assert (a + part + b)[1..] == a[1..] + part + b;
    }
  }

  predicate EndsWith(s: string, tail: string) { |tail| <= |s| && s[|s| - |tail|..] == tail }

  // ----- Decimal numbers -----

  predicate IsDigit(c: char) { '0' <= c <= '9' }

  predicate AllDigits(s: string) { forall i :: 0 <= i < |s| ==> IsDigit(s[i]) }

  function Digit(d: nat): char
    requires d < 10
  {
    (48 + d) as char
  }

  function Value(s: string): nat
    requires AllDigits(s)
  {
    if s == [] then 0 else 10 * Value(s[..|s| - 1]) + (s[|s| - 1] as int - 48)
  }

  function Decimal(n: nat): (s: string)
    ensures |s| > 0 && AllDigits(s)
  {
    if n < 10 then [Digit(n)] else Decimal(n / 10) + [Digit(n % 10)]
  }

  lemma {:induction false} ValueOfDecimal(n: nat)
    ensures Value(Decimal(n)) == n
  {
    if n >= 10 {
      ValueOfDecimal(n / 10);
      assert Decimal(n)[..|Decimal(n)| - 1] == Decimal(n / 10);
    }
  }

  lemma {:induction false} DecimalIsInjective(m: nat, n: nat)
    requires Decimal(m) == Decimal(n)
    ensures m == n
  {
    ValueOfDecimal(m);
    ValueOfDecimal(n);
  }

  function Pow10(w: nat): (p: nat)
    ensures p > 0
  {
    if w == 0 then 1 else 10 * Pow10(w - 1)
  }

  /** n with leading zeros, w characters wide. */
  function Padded(n: nat, w: nat): (s: string)
    ensures |s| == w && AllDigits(s)
  {
    if w == 0 then [] else Padded(n / 10, w - 1) + [Digit(n % 10)]
  }

  lemma {:induction false} ValueOfPadded(n: nat, w: nat)
    requires n < Pow10(w)
    ensures Value(Padded(n, w)) == n
  {
    if w > 0 {
      ValueOfPadded(n / 10, w - 1);
      assert Padded(n, w)[..w - 1] == Padded(n / 10, w - 1);
    }
  }

  lemma {:induction false} PaddedOrder(m: nat, n: nat, w: nat)
    requires m < Pow10(w) && n < Pow10(w)
    ensures Before(Padded(m, w), Padded(n, w)) <==> m < n
    ensures Padded(m, w) == Padded(n, w) <==> m == n
  {
    if w > 0 {
      PaddedOrder(m / 10, n / 10, w - 1);
      BeforeAfterHead(Padded(m / 10, w - 1), [Digit(m % 10)], Padded(n / 10, w - 1), [Digit(n % 10)]);
      var s, t := [Digit(m % 10)], [Digit(n % 10)];
      assert Before(s, t) <==> m % 10 < n % 10 by {
        assert s[1..] == "" && t[1..] == "";
      }
      assert Padded(m, w)[..w - 1] == Padded(m / 10, w - 1) && Padded(m, w)[w - 1] == s[0];
      assert Padded(n, w)[..w - 1] == Padded(n / 10, w - 1) && Padded(n, w)[w - 1] == t[0];
    }
  }

  // ----- Fixed-width layouts -----

  /** A number of fixed width behind a fixed separator. */
  datatype Field = Field(sep: string, width: nat)

  ghost predicate Fits(layout: seq<Field>, vs: seq<nat>) {
    |vs| == |layout| && forall i :: 0 <= i < |vs| ==> vs[i] < Pow10(layout[i].width)
  }

  function Write(layout: seq<Field>, vs: seq<nat>): string
    requires |vs| == |layout|
  {
    if layout == [] then []
    else layout[0].sep + Padded(vs[0], layout[0].width) + Write(layout[1..], vs[1..])
  }

  function Width(layout: seq<Field>): nat {
    if layout == [] then 0 else |layout[0].sep| + layout[0].width + Width(layout[1..])
  }

  lemma {:induction false} WriteWidth(layout: seq<Field>, vs: seq<nat>)
    requires |vs| == |layout|
    ensures |Write(layout, vs)| == Width(layout)
  {
    if layout != [] {
      WriteWidth(layout[1..], vs[1..]);
    }
  }

  lemma {:induction false} WriteCons(f: Field, layout: seq<Field>, v: nat, vs: seq<nat>)
    requires |vs| == |layout|
    ensures Write([f] + layout, [v] + vs) == f.sep + Padded(v, f.width) + Write(layout, vs)
  {
    assert ([f] + layout)[1..] == layout && ([v] + vs)[1..] == vs;
  }

  /** The numbers at the front of s, and what is left of s. */
  function Read(layout: seq<Field>, s: string): (r: Option<(seq<nat>, string)>)
    ensures r.Some? ==> |r.value.0| == |layout|
  {
    if layout == [] then Some(([], s))
    else
      var n, m := |layout[0].sep|, |layout[0].sep| + layout[0].width;
      if |s| < m || s[..n] != layout[0].sep || !AllDigits(s[n..m]) then None
      else
        match Read(layout[1..], s[m..])
        case None => None
        case Some(r) => Some(([Value(s[n..m])] + r.0, r.1))
  }

  lemma {:induction false} Split3(a: string, b: string, c: string)
    ensures (a + b + c)[..|a|] == a
    ensures (a + b + c)[|a|..|a| + |b|] == b
    ensures (a + b + c)[|a| + |b|..] == c
  {}

  lemma {:induction false} ReadWrite(layout: seq<Field>, vs: seq<nat>, rest: string)
    requires Fits(layout, vs)
    ensures Read(layout, Write(layout, vs) + rest) == Some((vs, rest))
  {
    if layout == [] {
      assert Write(layout, vs) + rest == rest;
    } else {
      var sep, number := layout[0].sep, Padded(vs[0], layout[0].width);
      var tail := Write(layout[1..], vs[1..]) + rest;
      ReadWrite(layout[1..], vs[1..], rest);
      assert Write(layout, vs) + rest == sep + number + tail;
      ValueOfPadded(vs[0], layout[0].width);
      ReadStep(layout, number, tail, vs[1..], rest);
      assert [vs[0]] + vs[1..] == vs;
    }
  }

  lemma {:induction false} ReadStep(layout: seq<Field>, number: string, tail: string, vs: seq<nat>, rest: string)
    requires layout != [] && |number| == layout[0].width && AllDigits(number)
    requires Read(layout[1..], tail) == Some((vs, rest))
    ensures Read(layout, layout[0].sep + number + tail) == Some(([Value(number)] + vs, rest))
  {
    hide AllDigits, Value;
    Split3(layout[0].sep, number, tail);
  }

  ghost predicate LexLess(u: seq<nat>, v: seq<nat>)
    requires |u| == |v|
  {
    u != [] && (u[0] < v[0] || (u[0] == v[0] && LexLess(u[1..], v[1..])))
  }

  lemma {:induction false} BlockOrder(sep: string, m: nat, n: nat, w: nat, x: string, y: string)
    requires m < Pow10(w) && n < Pow10(w)
    ensures Before(sep + Padded(m, w) + x, sep + Padded(n, w) + y) <==> m < n || (m == n && Before(x, y))
  {
    var a, b := Padded(m, w), Padded(n, w);
    assert sep + a + x == sep + (a + x) && sep + b + y == sep + (b + y);
    BeforeAfterHead(sep, a + x, sep, b + y);
    BeforeIsStrict(sep, sep);
    BeforeAfterHead(a, x, b, y);
    PaddedOrder(m, n, w);
  }

  lemma {:induction false} LexHead(u: seq<nat>, v: seq<nat>)
    requires |u| == |v| > 0
    ensures LexLess(u, v) <==> u[0] < v[0] || (u[0] == v[0] && LexLess(u[1..], v[1..]))
    ensures u == v <==> u[0] == v[0] && u[1..] == v[1..]
  {
    assert u == [u[0]] + u[1..] && v == [v[0]] + v[1..];
  }

  /** Texts of one layout are ordered as their numbers are. */
  lemma {:induction false} WriteOrder(layout: seq<Field>, u: seq<nat>, p: string, v: seq<nat>, q: string)
    requires Fits(layout, u) && Fits(layout, v)
    ensures Before(Write(layout, u) + p, Write(layout, v) + q) <==> LexLess(u, v) || (u == v && Before(p, q))
  {
    if layout == [] {
      assert Write(layout, u) + p == p && Write(layout, v) + q == q;
    } else {
      var u', v' := Write(layout[1..], u[1..]) + p, Write(layout[1..], v[1..]) + q;
      assert Write(layout, u) + p == layout[0].sep + Padded(u[0], layout[0].width) + u';
      assert Write(layout, v) + q == layout[0].sep + Padded(v[0], layout[0].width) + v';
      hide Write, Padded, Pow10, Before, LexLess;
      BlockOrder(layout[0].sep, u[0], v[0], layout[0].width, u', v');
      WriteOrder(layout[1..], u[1..], p, v[1..], q);
      LexHead(u, v);
    }
  }
}
