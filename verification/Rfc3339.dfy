/** Timestamps as RFC 3339 text (section 5.6), written in UTC with the fraction's trailing zeros dropped.
    An instant counts nanoseconds since 0000-01-01T00:00:00Z, over the years the format can write. */
module Rfc3339 {
  import opened Wrappers
  import opened Text
  import opened Calendar

  const NANOS := 1_000_000_000
  const DAY_SECONDS := 86_400
  const DAYS := 3_652_425
  const SECONDS := DAYS * DAY_SECONDS

  type Instant = t: int | 0 <= t < SECONDS * NANOS witness 0

  /** A layout that is read but never written: the hour in one digit. */
  const SHORT_LAYOUT: seq<Field> := [Field("", 4), Field("-", 2), Field("-", 2), Field("T", 1), Field(":", 2),
                                     Field(":", 2)]

  /** The zero value of the program's time type: 1 January of the year 1. */
  const ZERO_TIME: Instant := 366 * DAY_SECONDS * NANOS

  const LAYOUT: seq<Field> := [Field("", 4), Field("-", 2), Field("-", 2), Field("T", 2), Field(":", 2), Field(":", 2)]

  function Fields(sec: nat): (vs: seq<nat>)
    ensures |vs| == 6
  {
    var d := DateOf(sec / DAY_SECONDS);
    var s := sec % DAY_SECONDS;
    [d.year, d.month, d.day, s / 3600, s / 60 % 60, s % 60]
  }

  predicate ValidFields(vs: seq<nat>) {
    |vs| == 6 && ValidDate(Date(vs[0], vs[1], vs[2])) && vs[3] < 24 && vs[4] < 60 && vs[5] < 60
  }

  function SecondsOf(vs: seq<nat>): nat
    requires ValidFields(vs)
  {
    DayNumber(Date(vs[0], vs[1], vs[2])) * DAY_SECONDS + vs[3] * 3600 + vs[4] * 60 + vs[5]
  }

  function TrimZeros(s: string): (r: string)
    ensures r <= s
  {
    if s != [] && s[|s| - 1] == '0' then TrimZeros(s[..|s| - 1]) else s
  }

  function Fraction(ns: nat): string {
    if ns == 0 then "" else "." + TrimZeros(Padded(ns, 9))
  }

  function Format(t: Instant): string {
    Write(LAYOUT, Fields(t / NANOS)) + Fraction(t % NANOS) + "Z"
  }

  function DigitRun(s: string): (n: nat)
    ensures n <= |s| && AllDigits(s[..n])
  {
    if s != [] && IsDigit(s[0]) then 1 + DigitRun(s[1..]) else 0
  }

  /** Nanoseconds of a fraction; digits past the ninth are ignored. */
  function Nanos(digits: string): nat
    requires AllDigits(digits)
  {
    var n := if |digits| < 9 then |digits| else 9;
    Value(digits[..n]) * Pow10(9 - n)
  }

  /** The offset from UTC in seconds; 24 hours and 60 minutes are let through. */
  function ParseZone(s: string): Option<int> {
    if s == "Z" then Some(0)
    else if s == [] || (s[0] != '+' && s[0] != '-') then None
    else
      match Read([Field("", 2), Field(":", 2)], s[1..])
      case None => None
      case Some(r) =>
        if r.1 != [] || r.0[0] > 24 || r.0[1] > 60 then None
        else
          var offset: int := r.0[0] * 3600 + r.0[1] * 60;
          Some(if s[0] == '-' then -offset else offset)
  }

  /** The fraction, behind a period or a comma, and the offset. */
  function ParseTail(s: string): Option<(nat, int)> {
    var n := if s != [] && (s[0] == '.' || s[0] == ',') then DigitRun(s[1..]) else 0;
    var ns := if n > 0 then Nanos(s[1..][..n]) else 0;
    match ParseZone(if n > 0 then s[1 + n..] else s)
    case None => None
    case Some(offset) => Some((ns, offset))
  }

  /** The date and the time of day, and the text behind them. */
  function ParseHead(s: string): (r: Option<(seq<nat>, string)>)
    ensures r.Some? ==> |r.value.0| == 6
  {
    var head := Read(LAYOUT, s);
    if head.Some? then head else Read(SHORT_LAYOUT, s)
  }

  function Parse(s: string): Option<Instant> {
    match ParseHead(s)
    case None => None
    case Some(head) =>
      if !ValidFields(head.0) then None
      else
        match ParseTail(head.1)
        case None => None
        case Some(tail) =>
          var t := (SecondsOf(head.0) - tail.1) * NANOS + tail.0;
          if 0 <= t < SECONDS * NANOS then Some(t) else None
  }

  // ----- Parsing undoes formatting -----

  lemma {:induction false} ClockSplits(s: nat)
    requires s < DAY_SECONDS
    ensures s == s / 3600 * 3600 + s / 60 % 60 * 60 + s % 60
    ensures s / 3600 < 24 && s / 60 % 60 < 60 && s % 60 < 60
  {
    assert s / 60 == s / 3600 * 60 + s / 60 % 60;
  }

  lemma {:induction false} YearFits(n: nat, y: nat)
    requires YearStart(y) <= n < DAYS
    ensures y < 10000
  {
    if y >= 10000 {
      YearsAscend(10000, y);
    }
  }

  lemma {:induction false} MonthFits(leap: bool, m: nat)
    requires m < 12
    ensures MonthStart(leap, m + 1) - MonthStart(leap, m) < 100
  {}

  lemma {:induction false} DateFits(n: nat)
    requires n < DAYS
    ensures var d := DateOf(n); d.year < 10000 && d.month < 100 && d.day < 100
  {
    hide MonthStart, YearStart, Leap, DateOf;
    var d := DateOf(n);
    YearFits(n, d.year);
    MonthFits(Leap(d.year), d.month - 1);
  }

  lemma {:induction false} SixFit(vs: seq<nat>)
    requires |vs| == 6 && vs[0] < 10000 && forall i :: 1 <= i < 6 ==> vs[i] < 100
    ensures Fits(LAYOUT, vs)
  {
    assert Pow10(2) == 100 && Pow10(4) == 10000 by {
      assert Pow10(1) == 10 && Pow10(3) == 1000;
    }
  }

  lemma {:induction false} FieldsFit(sec: nat)
    requires sec < SECONDS
    ensures Fits(LAYOUT, Fields(sec)) && ValidFields(Fields(sec)) && SecondsOf(Fields(sec)) == sec
  {
    DateFits(sec / DAY_SECONDS);
    ClockSplits(sec % DAY_SECONDS);
    SixFit(Fields(sec));
  }

  lemma {:induction false} TrimKeepsValue(s: string)
    requires AllDigits(s)
    ensures Value(TrimZeros(s)) * Pow10(|s| - |TrimZeros(s)|) == Value(s)
  {
    if s != [] && s[|s| - 1] == '0' {
      var r := s[..|s| - 1];
      TrimKeepsValue(r);
      assert Pow10(|s| - |TrimZeros(s)|) == 10 * Pow10(|r| - |TrimZeros(r)|);
    }
  }

  lemma {:induction false} RunOfDigits(d: string, rest: string)
    requires AllDigits(d) && (rest == [] || !IsDigit(rest[0]))
    ensures DigitRun(d + rest) == |d|
  {
    if d == [] {
      assert d + rest == rest;
    } else {
      assert (d + rest)[1..] == d[1..] + rest;
      RunOfDigits(d[1..], rest);
    }
  }

  lemma {:induction false} NineDigits()
    ensures Pow10(9) == NANOS
  {
    assert Pow10(2) == 100 && Pow10(4) == 10_000 && Pow10(6) == 1_000_000 && Pow10(8) == 100_000_000;
  }

  /** The digits of a fraction, and their value. */
  lemma {:induction false} TrimmedDigits(ns: nat) returns (d: string)
    requires 0 < ns < NANOS
    ensures d == TrimZeros(Padded(ns, 9)) && d != [] && |d| <= 9 && AllDigits(d) && Nanos(d) == ns
  {
    hide Padded, TrimZeros, Pow10, Value;
    NineDigits();
    var digits := Padded(ns, 9);
    d := TrimZeros(digits);
    ValueOfPadded(ns, 9);
    TrimKeepsValue(digits);
    assert d[..|d|] == d;
    assert d != [] by { EmptyValue(); }
  }

  lemma {:induction false} EmptyValue()
    ensures Value([]) == 0
  {}

  lemma {:induction false} FractionTail(d: string)
    requires AllDigits(d) && d != []
    ensures ParseTail("." + d + "Z") == Some((Nanos(d), 0))
  {
    hide Nanos;
    var s := "." + d + "Z";
    assert s[1..] == d + "Z";
    RunOfDigits(d, "Z");
    assert s[1..][..|d|] == d && s[1 + |d|..] == "Z";
  }

  lemma {:induction false} TailRoundTrip(ns: nat)
    requires ns < NANOS
    ensures ParseTail(Fraction(ns) + "Z") == Some((ns, 0))
  {
    hide Nanos, TrimZeros, Padded, DigitRun;
    if ns == 0 {
      assert Fraction(ns) + "Z" == "Z";
    } else {
      var d := TrimmedDigits(ns);
      FractionTail(d);
    }
  }

  lemma {:induction false} ParseWritten(vs: seq<nat>, ns: nat, s: string, t: Instant)
    requires Fits(LAYOUT, vs) && ValidFields(vs) && ns < NANOS && SecondsOf(vs) * NANOS + ns == t
    requires s == Write(LAYOUT, vs) + (Fraction(ns) + "Z")
    ensures Parse(s) == Some(t)
  {
    hide Read, Write, ValidFields, SecondsOf, ParseTail, Fraction;
    ReadWrite(LAYOUT, vs, Fraction(ns) + "Z");
    TailRoundTrip(ns);
  }

  lemma {:induction false} ParseFormat(t: Instant)
    ensures Parse(Format(t)) == Some(t)
  {
    var sec, ns, s := t / NANOS, t % NANOS, Format(t);
    assert s == Write(LAYOUT, Fields(sec)) + (Fraction(ns) + "Z");
    FieldsFit(sec);
    var vs := Fields(sec);
    ParseWritten(vs, ns, s, t);
  }

  lemma {:induction false} FormatIsInjective(s: Instant, t: Instant)
    requires Format(s) == Format(t)
    ensures s == t
  {
    ParseFormat(s);
    ParseFormat(t);
  }

  // ----- Whole seconds have a fixed width -----

  ghost predicate WholeSecond(t: Instant) { t % NANOS == 0 }

  lemma {:induction false} WholeSecondWidth(t: Instant)
    requires WholeSecond(t)
    ensures |Format(t)| == 20
  {
    WriteWidth(LAYOUT, Fields(t / NANOS));
    assert Width(LAYOUT) == 19 by {
      assert Width(LAYOUT[4..]) == 6;
      assert Width(LAYOUT[2..]) == 12;
    }
  }

  ghost predicate LexLess3(a: nat, b: nat, c: nat, x: nat, y: nat, z: nat) {
    a < x || (a == x && (b < y || (b == y && c < z)))
  }

  lemma {:induction false} LexLess6(u: seq<nat>, v: seq<nat>)
    requires |u| == |v| == 6
    ensures LexLess(u, v)
       <==> LexLess3(u[0], u[1], u[2], v[0], v[1], v[2])
            || (u[..3] == v[..3] && LexLess3(u[3], u[4], u[5], v[3], v[4], v[5]))
  {
    assert u[3..][1..] == u[4..] && v[3..][1..] == v[4..] && u[4..][1..] == u[5..] && v[4..][1..] == v[5..];
    assert LexLess(u[5..], v[5..]) <==> u[5] < v[5];
    assert LexLess(u[4..], v[4..]) <==> u[4] < v[4] || (u[4] == v[4] && u[5] < v[5]);
    assert LexLess(u[3..], v[3..]) <==> LexLess3(u[3], u[4], u[5], v[3], v[4], v[5]);
    assert u[1..][1..] == u[2..] && v[1..][1..] == v[2..] && u[2..][1..] == u[3..] && v[2..][1..] == v[3..];
    assert LexLess(u[2..], v[2..]) <==> u[2] < v[2] || (u[2] == v[2] && LexLess(u[3..], v[3..]));
    assert LexLess(u[1..], v[1..]) <==> u[1] < v[1] || (u[1] == v[1] && LexLess(u[2..], v[2..]));
  }

  lemma {:induction false} ClockInOrder(s: nat, t: nat)
    requires s < t < DAY_SECONDS
    ensures LexLess3(s / 3600, s / 60 % 60, s % 60, t / 3600, t / 60 % 60, t % 60)
  {
    ClockSplits(s);
    ClockSplits(t);
  }

  lemma {:induction false} FieldsInOrder(a: nat, b: nat)
    requires a < b
    ensures LexLess(Fields(a), Fields(b))
  {
    LexLess6(Fields(a), Fields(b));
    var m, n := a / DAY_SECONDS, b / DAY_SECONDS;
    DatesInOrder(DateOf(m), DateOf(n));
    if m == n {
      ClockInOrder(a % DAY_SECONDS, b % DAY_SECONDS);
    } else {
      assert m < n;
    }
  }

  lemma {:induction false} HeadsInOrder(a: nat, b: nat, tail: string)
    requires a < b < SECONDS
    ensures Before(Write(LAYOUT, Fields(a)) + tail, Write(LAYOUT, Fields(b)) + tail)
  {
    FieldsFit(a);
    FieldsFit(b);
    FieldsInOrder(a, b);
    WriteOrder(LAYOUT, Fields(a), tail, Fields(b), tail);
  }

  // ----- Text order against time order -----

  lemma {:induction false} OnlyZerosTrimmed(s: string)
    ensures forall i :: |TrimZeros(s)| <= i < |s| ==> s[i] == '0'
    ensures TrimZeros(s) == s[..|TrimZeros(s)|]
  {
    if s != [] && s[|s| - 1] == '0' {
      OnlyZerosTrimmed(s[..|s| - 1]);
    }
  }

  /** Of two different digit strings of one length, trimmed, the lesser with a "Z" behind it comes first
      unless it is a prefix of the greater. */
  lemma {:induction false} TrimmedOrder(x: string, y: string)
    requires |x| == |y| && AllDigits(x) && AllDigits(y) && Before(x, y)
    ensures Before(TrimZeros(x) + "Z", TrimZeros(y) + "Z") <==> !(TrimZeros(x) <= TrimZeros(y))
  {
    hide Before, TrimZeros;
    var p, q := TrimZeros(x), TrimZeros(y);
    OnlyZerosTrimmed(x);
    OnlyZerosTrimmed(y);
    var i := FirstDifference(x, y);
    assert y[i] != '0';
    assert i < |q| && q[i] == y[i];
    if i < |p| {
      assert p[..i] == x[..i] && q[..i] == y[..i];
      assert (p + "Z")[..i] == p[..i] && (q + "Z")[..i] == q[..i];
      assert DiffersAt(p + "Z", q + "Z", i);
      DifferenceDecides(p + "Z", q + "Z", i);
      assert p[i] != q[i];
    } else {
      assert p == x[..i][..|p|] && q[..|p|] == y[..i][..|p|];
      assert p <= q;
      DigitBeforeZ(p, q, x[..|p|] + "Z");
    }
  }

  lemma {:induction false} DigitBeforeZ(p: string, q: string, text: string)
    requires p < q && text == p + "Z" && q[|p|] < 'Z'
    ensures !Before(text, q + "Z")
  {
    hide Before;
    var i := |p|;
    assert (q + "Z")[..i] == q[..i] == p && text[..i] == p;
    assert DiffersAt(q + "Z", text, i);
    DifferenceDecides(q + "Z", text, i);
    BeforeIsStrict(q + "Z", text);
  }

  /** Of two instants in one second the earlier one's text comes behind the later one's: its fraction is a
      prefix of the later one's. */
  ghost predicate Reversed(s: Instant, t: Instant) {
    s < t && s / NANOS == t / NANOS && Fraction(s % NANOS) <= Fraction(t % NANOS)
  }

  lemma {:induction false} FractionOfPositive(ns: nat)
    requires 0 < ns < NANOS
    ensures Fraction(ns) == "." + TrimZeros(Padded(ns, 9))
  {}

  lemma {:induction false} PositiveFractionOrder(a: nat, b: nat)
    requires 0 < a < b < NANOS
    ensures Before(Fraction(a) + "Z", Fraction(b) + "Z") <==> !(Fraction(a) <= Fraction(b))
  {
    NineDigits();
    FractionOfPositive(a);
    FractionOfPositive(b);
    hide *;
    var x, y := Padded(a, 9), Padded(b, 9);
    PaddedOrder(a, b, 9);
    TrimmedOrder(x, y);
    var c, d := TrimZeros(x), TrimZeros(y);
    assert Fraction(a) + "Z" == "." + (c + "Z") && Fraction(b) + "Z" == "." + (d + "Z");
    BeforeAfterHead(".", c + "Z", ".", d + "Z");
    BeforeIsStrict(".", ".");
    PrefixBehindPeriod(c, d);
  }

  lemma {:induction false} FractionOrder(a: nat, b: nat)
    requires a < b < NANOS
    ensures Before(Fraction(a) + "Z", Fraction(b) + "Z") <==> !(Fraction(a) <= Fraction(b))
  {
    if a == 0 {
      FractionOfPositive(b);
      hide TrimZeros, Padded, Before;
      assert Fraction(a) == "" && Fraction(b)[0] == '.';
      DigitBeforeZ("", Fraction(b), "" + "Z");
    } else {
      PositiveFractionOrder(a, b);
    }
  }

  lemma {:induction false} PrefixBehindPeriod(c: string, d: string)
    ensures "." + c <= "." + d <==> c <= d
  {
    var p, q := "." + c, "." + d;
    assert p[1..] == c && q[1..] == d;
    if p <= q {
      assert q[..|p|][1..] == d[..|c|];
    }
  }

  /** The text of an instant: the second it lies in, and the rest. */
  lemma {:induction false} TextOfInstant(t: Instant)
    ensures Format(t) == Write(LAYOUT, Fields(t / NANOS)) + (Fraction(t % NANOS) + "Z")
    ensures |Write(LAYOUT, Fields(t / NANOS))| == Width(LAYOUT)
  {
    WriteWidth(LAYOUT, Fields(t / NANOS));
  }

  /** For s before t, text order is time order exactly unless they are reversed. */
  lemma {:induction false} EarlierTextUnlessReversed(s: Instant, t: Instant)
    requires s < t
    ensures Before(Format(s), Format(t)) <==> !Reversed(s, t)
  {
    hide Write, Fields, Fraction, Before, Width, Format;
    TextOfInstant(s);
    TextOfInstant(t);
    var m, n := s / NANOS, t / NANOS;
    var p, q := Fraction(s % NANOS) + "Z", Fraction(t % NANOS) + "Z";
    BeforeAfterHead(Write(LAYOUT, Fields(m)), p, Write(LAYOUT, Fields(n)), q);
    if m == n {
      FractionOrder(s % NANOS, t % NANOS);
      BeforeIsStrict(Write(LAYOUT, Fields(m)), Write(LAYOUT, Fields(m)));
    } else {
      assert m < n;
      HeadsInOrder(m, n, "");
      assert Write(LAYOUT, Fields(m)) + "" == Write(LAYOUT, Fields(m))
             && Write(LAYOUT, Fields(n)) + "" == Write(LAYOUT, Fields(n));
    }
  }

  /** When the text of one instant comes before another's: exactly when it is earlier and the two are not
      reversed, or later and they are. */
  lemma {:induction false} TextOrderExactly(s: Instant, t: Instant)
    ensures Before(Format(s), Format(t)) <==> (s < t && !Reversed(s, t)) || Reversed(t, s)
  {
    hide Before, Format;
    if s < t {
      EarlierTextUnlessReversed(s, t);
    } else {
      BeforeIsStrict(Format(s), Format(t));
      if t < s {
        EarlierTextUnlessReversed(t, s);
        FormatDiffers(s, t);
      }
    }
  }

  lemma {:induction false} FormatDiffers(s: Instant, t: Instant)
    requires s != t
    ensures Format(s) != Format(t)
  {
    hide Format;
    if Format(s) == Format(t) {
      FormatIsInjective(s, t);
    }
  }

  /** Whole seconds are never reversed, so their texts sort as they do. */
  lemma {:induction false} WholeSecondOrder(s: Instant, t: Instant)
    requires WholeSecond(s) && WholeSecond(t)
    ensures Before(Format(s), Format(t)) <==> s < t
  {
    hide Before, Format, Fraction;
    TextOrderExactly(s, t);
  }

  /** An instant at a whole second and any later one in that second are reversed. */
  lemma {:induction false} FractionBreaksTextOrder(s: Instant, t: Instant)
    requires WholeSecond(s) && s < t && s / NANOS == t / NANOS
    ensures Before(Format(t), Format(s))
  {
    TextOrderExactly(t, s);
  }

  // ----- The text written out -----

  lemma {:induction false} TwoFields(first: string, a: nat, w: nat, second: string, b: nat)
    ensures Write([Field(first, w), Field(second, 2)], [a, b]) == first + Padded(a, w) + (second + Padded(b, 2))
  {
    hide Padded;
    WriteCons(Field(first, w), [Field(second, 2)], a, [b]);
    WriteCons(Field(second, 2), [], b, []);
    assert [Field(first, w)] + [Field(second, 2)] == [Field(first, w), Field(second, 2)] && [a] + [b] == [a, b];
    assert [Field(second, 2)] + [] == [Field(second, 2)] && [b] + [] == [b];
  }

  /** The text of an instant, field by field (section 5.6 of RFC 3339). */
  lemma {:induction false} FormatWrittenOut(t: Instant)
    ensures var sec := t / NANOS;
            var d, s := DateOf(sec / 86_400), sec % 86_400;
            Format(t) == Padded(d.year, 4) + ("-" + Padded(d.month, 2))
                         + (("-" + Padded(d.day, 2) + ("T" + Padded(s / 3600, 2)))
                            + (":" + Padded(s / 60 % 60, 2) + (":" + Padded(s % 60, 2))))
                         + Fraction(t % NANOS) + "Z"
  {
    hide DateOf, Fraction, Padded, Write;
    var vs := Fields(t / NANOS);
    TwoFields("", vs[0], 4, "-", vs[1]);
    TwoFields("-", vs[2], 2, "T", vs[3]);
    TwoFields(":", vs[4], 2, ":", vs[5]);
    var date, day := [Field("", 4), Field("-", 2)], [Field("-", 2), Field("T", 2)];
    var clock := [Field(":", 2), Field(":", 2)];
    WriteConcat(date, day + clock, vs[..2], vs[2..]);
    WriteConcat(day, clock, vs[2..4], vs[4..]);
    assert LAYOUT == date + (day + clock) && vs == vs[..2] + vs[2..] && vs[2..] == vs[2..4] + vs[4..];
    assert vs[..2] == [vs[0], vs[1]] && vs[2..4] == [vs[2], vs[3]] && vs[4..] == [vs[4], vs[5]];
    assert "" + Padded(vs[0], 4) == Padded(vs[0], 4);
  }

  lemma {:induction false} WriteConcat(f: seq<Field>, g: seq<Field>, vs: seq<nat>, ws: seq<nat>)
    requires |f| == |vs| && |g| == |ws|
    ensures Write(f + g, vs + ws) == Write(f, vs) + Write(g, ws)
  {
    hide Padded;
    if f == [] {
      assert f + g == g && vs + ws == ws;
    } else {
      WriteConcat(f[1..], g, vs[1..], ws);
      assert (f + g)[1..] == f[1..] + g && (vs + ws)[1..] == vs[1..] + ws;
    }
  }

  function Zone(ahead: bool, hours: nat, minutes: nat): string {
    (if ahead then "+" else "-") + (Padded(hours, 2) + (":" + Padded(minutes, 2)))
  }

  function Offset(ahead: bool, hours: nat, minutes: nat): int {
    if ahead then hours * 3600 + minutes * 60 else -(hours * 3600 + minutes * 60)
  }

  /** A local time with an offset is that much earlier in UTC when the offset is ahead, and later when it is behind. */
  lemma {:induction false} OffsetsAreTakenAway(vs: seq<nat>, ahead: bool, hours: nat, minutes: nat)
    requires ValidFields(vs) && vs[0] < 10000 && hours <= 24 && minutes <= 60
    ensures var t := (SecondsOf(vs) - Offset(ahead, hours, minutes)) * NANOS;
            Parse(Write(LAYOUT, vs) + Zone(ahead, hours, minutes)) == if 0 <= t < SECONDS * NANOS then Some(t) else None
  {
    FieldsOfDate(vs);
    hide SecondsOf, Write, Read, ValidFields, ParseTail, Zone, Offset;
    TailIsZone(ahead, hours, minutes);
    ReadWrite(LAYOUT, vs, Zone(ahead, hours, minutes));
  }

  lemma {:induction false} TailIsZone(ahead: bool, hours: nat, minutes: nat)
    requires hours <= 24 && minutes <= 60
    ensures ParseTail(Zone(ahead, hours, minutes)) == Some((0, Offset(ahead, hours, minutes)))
  {
    hide Padded, ParseZone, Offset;
    ZoneIsRead(ahead, hours, minutes);
  }

  lemma {:induction false} FieldsOfDate(vs: seq<nat>)
    requires ValidFields(vs) && vs[0] < 10000
    ensures Fits(LAYOUT, vs)
  {
    var d := Date(vs[0], vs[1], vs[2]);
    DaysOfMonth(d);
    assert Pow10(4) == 10000 && Pow10(2) == 100;
  }

  lemma {:induction false} DaysOfMonth(d: Date)
    requires ValidDate(d)
    ensures d.day <= 31
  {
    MonthLengths(Leap(d.year), d.month - 1);
  }

  lemma {:induction false} ZoneIsRead(ahead: bool, hours: nat, minutes: nat)
    requires hours <= 24 && minutes <= 60
    ensures ParseZone(Zone(ahead, hours, minutes)) == Some(Offset(ahead, hours, minutes))
  {
    TwoFields("", hours, 2, ":", minutes);
    var layout, vs := [Field("", 2), Field(":", 2)], [hours, minutes];
    var text := Padded(hours, 2) + (":" + Padded(minutes, 2));
    assert "" + Padded(hours, 2) + (":" + Padded(minutes, 2)) == text;
    assert Fits(layout, vs) by { assert Pow10(2) == 100; }
    hide Padded, Read, Write;
    ReadWrite(layout, vs, "");
    assert text + "" == text;
    assert Zone(ahead, hours, minutes)[1..] == text;
  }
}
