/** How well a version fits the search terms, and the order of versions. */
module SearchVersions {
  import opened Text
  import opened Seqs

  // ----- Precision -----

  datatype Precision = Exact | Prerelease | Substring | NoMatch
  {
    function Rank(): nat { if Exact? then 0 else if Prerelease? then 1 else if Substring? then 2 else 3 }
  }

  /** The precision of one term; lower is the case folding. */
  function PrecisionOf(lower: string -> string, version: string, term: string): Precision {
    var v, t := lower(version), lower(term);
    if t == "" || !Contains(v, t) then NoMatch
    else if v == t then Exact
    else if t <= v && (v[|t|] == '-' || v[|t|] == '+') then Prerelease
    else Substring
  }

  /** The best precision of any term; none for a file without a version. */
  ghost predicate IsPrecision(p: Precision, lower: string -> string, version: string, terms: seq<string>) {
    if version == "" then p == NoMatch
    else
      && (forall t :: t in terms ==> p.Rank() <= PrecisionOf(lower, version, t).Rank())
      && (p == NoMatch || exists t :: t in terms && p == PrecisionOf(lower, version, t))
  }

  method MatchPrecision(lower: string -> string, version: string, terms: seq<string>) returns (best: Precision)
    ensures IsPrecision(best, lower, version, terms)
  {
    hide PrecisionOf;
    best := NoMatch;
    if version == "" {
      return;
    }
    for i := 0 to |terms|
      invariant IsPrecision(best, lower, version, terms[..i])
    {
      assert terms[..i + 1] == terms[..i] + [terms[i]];
      var current := PrecisionOf(lower, version, terms[i]);
      if current.Rank() < best.Rank() {
        best := current;
      }
    }
    assert terms[..|terms|] == terms;
  }

  /** The precision of a term, written out: the whole version, the version up to a qualifier, or a part of it; a term
      that folds to nothing has none. */
  lemma {:induction false} PrecisionWrittenOut(lower: string -> string, version: string, term: string)
    ensures var (v, t, p) := (lower(version), lower(term), PrecisionOf(lower, version, term));
            && (p == Exact <==> t != "" && v == t)
            && (p == Prerelease <==> t != "" && exists q :: v == t + "-" + q || v == t + "+" + q)
            && (p == NoMatch <==> t == "" || forall a, b :: v != a + t + b)
  {
    var v, t := lower(version), lower(term);
    ContainsMeans(v, t);
    assert "" + t + "" == t;
    forall q | v == t + "-" + q || v == t + "+" + q ensures t <= v && |t| < |v| && v[|t|] in ['-', '+'] {}
    if t <= v && |t| < |v| && v[|t|] in ['-', '+'] {
      assert v == t + [v[|t|]] + v[|t| + 1..];
      assert v == "" + t + v[|t|..];
    }
  }

  /** Versions that differ in case only have one precision. */
  lemma {:induction false} PrecisionFoldsCase(
      p: Precision, q: Precision, lower: string -> string, v: string, w: string, terms: seq<string>)
    requires lower("") == "" && lower(v) == lower(w)
    requires IsPrecision(p, lower, v, terms) && IsPrecision(q, lower, w, terms)
    ensures p == q
  {
    assert forall t :: PrecisionOf(lower, v, t) == PrecisionOf(lower, w, t);
    assert v == "" ==> forall t :: PrecisionOf(lower, w, t) == NoMatch;
    assert w == "" ==> forall t :: PrecisionOf(lower, v, t) == NoMatch;
    hide PrecisionOf;
  }

  /** More terms never make a version's precision worse. */
  lemma {:induction false} MoreTermsNeverWorsen(p: Precision, q: Precision, lower: string -> string, version: string,
                                                terms: seq<string>, more: seq<string>)
    requires IsPrecision(p, lower, version, terms) && IsPrecision(q, lower, version, more)
    requires forall t :: t in terms ==> t in more
    ensures q.Rank() <= p.Rank()
  {
    hide PrecisionOf;
  }

  // ----- Version vectors -----

  predicate IsSeparator(c: char) { c == '.' || c == '-' || c == '+' }

  /** The pieces between the separators. */
  function Segments(s: string): (r: seq<string>)
    ensures |r| > 0
  {
    if s == [] then [""]
    else
      var rest := Segments(s[1..]);
      if IsSeparator(s[0]) then [""] + rest else [[s[0]] + rest[0]] + rest[1..]
  }

  predicate IsNumber(s: string) { s != "" && AllDigits(s) }

  /** The numbers in front of the first piece that is none. */
  function Leading(segments: seq<string>): seq<nat> {
    if segments == [] || !IsNumber(segments[0]) then [] else [Value(segments[0])] + Leading(segments[1..])
  }

  function Vector(version: string): seq<nat> { Leading(Segments(version)) }

  predicate Plain(s: string) { forall i :: 0 <= i < |s| ==> !IsSeparator(s[i]) }

  lemma {:induction false} SegmentsOfPlain(s: string)
    requires Plain(s)
    ensures Segments(s) == [s]
  {
    if s != [] {
      SegmentsOfPlain(s[1..]);
      assert [s[0]] + s[1..] == s;
    }
  }

  lemma {:induction false} SegmentsSplit(a: string, c: char, rest: string)
    requires Plain(a) && IsSeparator(c)
    ensures Segments(a + [c] + rest) == [a] + Segments(rest)
  {
    var s := a + [c] + rest;
    if a == [] {
      assert s[1..] == rest;
    } else {
      SegmentsSplit(a[1..], c, rest);
      assert s[1..] == a[1..] + [c] + rest && s[0] == a[0];
      assert [a[0]] + a[1..] == a;
    }
  }

  /** A version as it is written: numbers between dots, and a qualifier behind them. */
  function Written(numbers: seq<nat>, qualifier: string): string
    requires numbers != []
  {
    Decimal(numbers[0]) + if |numbers| == 1 then qualifier else "." + Written(numbers[1..], qualifier)
  }

  /** A separator and a piece that is no number. */
  predicate IsQualifier(s: string) {
    s != "" && s[0] in ['.', '-', '+'] && Plain(s[1..]) && exists c :: c in s[1..] && !IsDigit(c)
  }

  /** The vector of a version is its numbers; a qualifier ends them. */
  lemma {:induction false} VectorOfWritten(numbers: seq<nat>, qualifier: string)
    requires numbers != [] && (qualifier == "" || IsQualifier(qualifier))
    ensures Vector(Written(numbers, qualifier)) == numbers
  {
    hide IsQualifier, Segments, Leading;
    if |numbers| > 1 {
      VectorOfWritten(numbers[1..], qualifier);
      OneMoreNumber(numbers[0], Written(numbers[1..], qualifier));
      assert numbers == [numbers[0]] + numbers[1..];
    } else {
      LastNumber(numbers[0], qualifier);
    }
  }

  lemma {:induction false} DecimalIsPlain(n: nat)
    ensures Plain(Decimal(n)) && IsNumber(Decimal(n)) && Value(Decimal(n)) == n
  {
    ValueOfDecimal(n);
    hide Decimal, Value;
  }

  lemma {:induction false} OneMoreNumber(n: nat, rest: string)
    ensures Vector(Decimal(n) + ("." + rest)) == [n] + Vector(rest)
  {
    DecimalIsPlain(n);
    hide Decimal, Value, Segments, Leading, Plain, IsNumber;
    SegmentsSplit(Decimal(n), '.', rest);
    assert Decimal(n) + ("." + rest) == Decimal(n) + ['.'] + rest;
    LeadingStep(Decimal(n), Segments(rest));
  }

  lemma {:induction false} LastNumber(n: nat, qualifier: string)
    requires qualifier == "" || IsQualifier(qualifier)
    ensures Vector(Decimal(n) + qualifier) == [n]
  {
    DecimalIsPlain(n);
    hide Decimal, Value, Segments, Plain;
    if qualifier == "" {
      SegmentsOfPlain(Decimal(n));
      LeadingStep(Decimal(n), []);
      assert Decimal(n) + "" == Decimal(n) && [Decimal(n)] + [] == [Decimal(n)];
    } else {
      SegmentsOfPlain(qualifier[1..]);
      SegmentsSplit(Decimal(n), qualifier[0], qualifier[1..]);
      assert Decimal(n) + qualifier == Decimal(n) + [qualifier[0]] + qualifier[1..];
      LeadingStep(Decimal(n), [qualifier[1..]]);
    }
  }

  lemma {:induction false} LeadingStep(first: string, rest: seq<string>)
    requires IsNumber(first)
    ensures Leading([first] + rest) == [Value(first)] + Leading(rest)
  {
    assert ([first] + rest)[1..] == rest;
  }

  method VersionVector(version: string) returns (out: seq<nat>)
    ensures out == Vector(version)
  {
    hide Segments, Value;
    out := [];
    var segments := Segments(version);
    for i := 0 to |segments|
      invariant out + Leading(segments[i..]) == Leading(segments)
    {
      assert segments[i..][1..] == segments[i + 1..];
      if !IsNumber(segments[i]) {
        break;
      }
      out := out + [Value(segments[i])];
    }
  }

  /** The entry at an index; missing entries are zero. */
  function At(v: seq<nat>, i: nat): nat { if i < |v| then v[i] else 0 }

  /** The first entry in which the vectors differ, from an index on, later minus earlier. */
  function DifferenceFrom(a: seq<nat>, b: seq<nat>, i: nat): int
    decreases (if |a| < |b| then |b| else |a|) - i
  {
    if i >= |a| && i >= |b| then 0
    else if At(b, i) != At(a, i) then At(b, i) - At(a, i)
    else DifferenceFrom(a, b, i + 1)
  }

  function CompareVectorDesc(a: string, b: string): int { DifferenceFrom(Vector(a), Vector(b), 0) }

  method CompareVersionVectorDesc(a: string, b: string) returns (diff: int)
    ensures diff == CompareVectorDesc(a, b)
  {
    var left := VersionVector(a);
    var right := VersionVector(b);
    for i := 0 to if |left| < |right| then |right| else |left|
      invariant DifferenceFrom(left, right, i) == CompareVectorDesc(a, b)
    {
      diff := (if i < |right| then right[i] as int else 0) - if i < |left| then left[i] else 0;
      if diff != 0 {
        return;
      }
    }
    diff := 0;
  }

  // ----- The order of version vectors -----

  /** The vectors agree before the index and differ there, the first being greater. */
  ghost predicate GreaterAt(a: seq<nat>, b: seq<nat>, k: nat) {
    At(a, k) > At(b, k) && forall j: nat :: j < k ==> At(a, j) == At(b, j)
  }

  lemma {:induction false} DifferenceMeans(a: seq<nat>, b: seq<nat>, i: nat)
    requires forall j: nat :: j < i ==> At(a, j) == At(b, j)
    ensures DifferenceFrom(a, b, i) < 0 <==> exists k :: GreaterAt(a, b, k)
    ensures DifferenceFrom(a, b, i) > 0 <==> exists k :: GreaterAt(b, a, k)
    ensures DifferenceFrom(a, b, i) == 0 <==> forall j: nat :: At(a, j) == At(b, j)
    decreases (if |a| < |b| then |b| else |a|) - i
  {
    if i >= |a| && i >= |b| {
      assert forall j: nat :: At(a, j) == At(b, j);
    } else if At(b, i) != At(a, i) {
      assert At(a, i) > At(b, i) ==> GreaterAt(a, b, i);
      assert At(a, i) < At(b, i) ==> GreaterAt(b, a, i);
      forall k: nat | GreaterAt(a, b, k) ensures At(a, i) > At(b, i) {
        assert k >= i;
      }
      forall k: nat | GreaterAt(b, a, k) ensures At(b, i) > At(a, i) {
        assert k >= i;
      }
    } else {
      DifferenceMeans(a, b, i + 1);
    }
  }

  /** Descending vectors: the first is at or before the second. */
  predicate VectorLe(a: string, b: string) { CompareVectorDesc(a, b) <= 0 }

  function DropZeros(v: seq<nat>): seq<nat> {
    if v != [] && v[|v| - 1] == 0 then DropZeros(v[..|v| - 1]) else v
  }

  lemma {:induction false} AtDropZeros(v: seq<nat>, i: nat)
    ensures At(DropZeros(v), i) == At(v, i)
  {
    if v != [] && v[|v| - 1] == 0 {
      AtDropZeros(v[..|v| - 1], i);
    }
  }

  lemma {:induction false} NoTrailingZero(v: seq<nat>)
    ensures var r := DropZeros(v); r == [] || r[|r| - 1] != 0
  {
    if v != [] && v[|v| - 1] == 0 {
      NoTrailingZero(v[..|v| - 1]);
    }
  }

  /** Versions tie exactly when their vectors are the same up to trailing zeros. */
  lemma {:induction false} TiesAreTrailingZeros(a: string, b: string)
    ensures CompareVectorDesc(a, b) == 0 <==> DropZeros(Vector(a)) == DropZeros(Vector(b))
  {
    hide Vector;
    var u, v := Vector(a), Vector(b);
    var p, q := DropZeros(u), DropZeros(v);
    DifferenceMeans(u, v, 0);
    NoTrailingZero(u);
    NoTrailingZero(v);
    forall i: nat ensures At(p, i) == At(u, i) && At(q, i) == At(v, i) {
      AtDropZeros(u, i);
      AtDropZeros(v, i);
    }
    if CompareVectorDesc(a, b) == 0 {
      assert forall i: nat :: At(p, i) == At(q, i);
      assert p != [] ==> At(q, |p| - 1) != 0;
      assert q != [] ==> At(p, |q| - 1) != 0;
      assert |p| == |q| && forall i :: 0 <= i < |p| ==> p[i] == At(p, i) == At(q, i) == q[i];
      assert p == q;
    }
  }

  /** The comparison of version vectors is a total preorder, and reversing the arguments reverses the sign. */
  lemma {:induction false} VectorOrderIsTotal()
    ensures Total(VectorLe) && Transitive(VectorLe)
    ensures forall a, b :: CompareVectorDesc(a, b) < 0 <==> CompareVectorDesc(b, a) > 0
  {
    hide Vector, DifferenceFrom;
    forall a, b
      ensures (VectorLe(a, b) || VectorLe(b, a)) && (CompareVectorDesc(a, b) < 0 <==> CompareVectorDesc(b, a) > 0)
    {
      DifferenceMeans(Vector(a), Vector(b), 0);
      DifferenceMeans(Vector(b), Vector(a), 0);
    }
    forall a, b, c | VectorLe(a, b) && VectorLe(b, c) ensures VectorLe(a, c) {
      VectorLeIsTransitive(a, b, c);
    }
  }

  lemma {:induction false} VectorLeIsTransitive(a: string, b: string, c: string)
    requires VectorLe(a, b) && VectorLe(b, c)
    ensures VectorLe(a, c)
  {
    hide Vector, DifferenceFrom;
    var u, v, w := Vector(a), Vector(b), Vector(c);
    DifferenceMeans(u, v, 0);
    DifferenceMeans(v, w, 0);
    DifferenceMeans(u, w, 0);
    if m: nat :| GreaterAt(u, v, m) {
      if n: nat :| GreaterAt(v, w, n) {
        assert GreaterAt(u, w, if m < n then m else n);
      } else {
        assert GreaterAt(u, w, m);
      }
    } else if n: nat :| GreaterAt(v, w, n) {
      assert GreaterAt(u, w, n);
    }
  }
}
