/** Sequences as the programs use them: filtering, stable sorting, and splitting by a key. */
module Seqs {
  function Map<T, U>(f: T -> U, s: seq<T>): (r: seq<U>)
    ensures |r| == |s| && forall i :: 0 <= i < |s| ==> r[i] == f(s[i])
  {
    seq(|s|, i requires 0 <= i < |s| => f(s[i]))
  }

  /** The elements of s that satisfy p, in order. */
  function Filter<T(!new)>(p: T -> bool, s: seq<T>): (r: seq<T>)
    ensures forall x :: x in r <==> x in s && p(x)
    ensures |r| <= |s|
  {
    if s == [] then [] else
      assert s == s[..|s| - 1] + [s[|s| - 1]];
      Filter(p, s[..|s| - 1]) + if p(s[|s| - 1]) then [s[|s| - 1]] else []
  }

  /** The elements of s with key k, in order. */
  function Bucket<T(!new), K(==)>(key: T -> K, k: K, s: seq<T>): (r: seq<T>)
    ensures forall x :: x in r <==> x in s && key(x) == k
  {
    if s == [] then [] else
      assert s == s[..|s| - 1] + [s[|s| - 1]];
      Bucket(key, k, s[..|s| - 1]) + if key(s[|s| - 1]) == k then [s[|s| - 1]] else []
  }

  function Flatten<T>(ss: seq<seq<T>>): seq<T> {
    if ss == [] then [] else ss[0] + Flatten(ss[1..])
  }

  function Sum(s: seq<int>): int {
    if s == [] then 0 else Sum(s[..|s| - 1]) + s[|s| - 1]
  }

  ghost predicate Distinct<T>(s: seq<T>) {
    forall i, j :: 0 <= i < j < |s| ==> s[i] != s[j]
  }

  // ----- Multiplicities -----

  lemma {:induction false} Unsnoc<T>(s: seq<T>)
    requires s != []
    ensures s == s[..|s| - 1] + [s[|s| - 1]]
    ensures multiset(s) == multiset(s[..|s| - 1]) + multiset{s[|s| - 1]}
  {
    assert s == s[..|s| - 1] + [s[|s| - 1]];
  }

  lemma {:induction false} FilterCount<T(!new)>(p: T -> bool, s: seq<T>, x: T)
    ensures multiset(Filter(p, s))[x] == if p(x) then multiset(s)[x] else 0
  {
    if s != [] {
      Unsnoc(s);
      FilterCount(p, s[..|s| - 1], x);
    }
  }

  lemma {:induction false} BucketCount<T(!new), K>(key: T -> K, k: K, s: seq<T>, x: T)
    ensures multiset(Bucket(key, k, s))[x] == if key(x) == k then multiset(s)[x] else 0
  {
    if s != [] {
      Unsnoc(s);
      BucketCount(key, k, s[..|s| - 1], x);
    }
  }

  /** Reordering a sequence reorders what a filter keeps, and nothing else. */
  lemma {:induction false} FilterPermutes<T(!new)>(p: T -> bool, s: seq<T>, t: seq<T>)
    requires multiset(s) == multiset(t)
    ensures multiset(Filter(p, s)) == multiset(Filter(p, t))
    ensures |Filter(p, s)| == |Filter(p, t)|
  {
    forall x ensures multiset(Filter(p, s))[x] == multiset(Filter(p, t))[x] {
      FilterCount(p, s, x);
      FilterCount(p, t, x);
    }
    SameSize(Filter(p, s), Filter(p, t));
  }

  lemma {:induction false} BucketPermutes<T(!new), K>(key: T -> K, k: K, s: seq<T>, t: seq<T>)
    requires multiset(s) == multiset(t)
    ensures multiset(Bucket(key, k, s)) == multiset(Bucket(key, k, t))
    ensures |Bucket(key, k, s)| == |Bucket(key, k, t)|
  {
    forall x ensures multiset(Bucket(key, k, s))[x] == multiset(Bucket(key, k, t))[x] {
      BucketCount(key, k, s, x);
      BucketCount(key, k, t, x);
    }
    SameSize(Bucket(key, k, s), Bucket(key, k, t));
  }

  lemma {:induction false} SameSize<T>(s: seq<T>, t: seq<T>)
    requires multiset(s) == multiset(t)
    ensures |s| == |t|
    ensures forall x :: x in s <==> x in t
  {
    assert |multiset(s)| == |s| && |multiset(t)| == |t|;
    forall x ensures x in s <==> x in t {
      assert x in s <==> x in multiset(s);
      assert x in t <==> x in multiset(t);
    }
  }

  lemma {:induction false} FilterAgrees<T(!new)>(p: T -> bool, q: T -> bool, s: seq<T>)
    requires forall x :: x in s ==> p(x) == q(x)
    ensures Filter(p, s) == Filter(q, s)
  {
    if s != [] {
      Unsnoc(s);
      FilterAgrees(p, q, s[..|s| - 1]);
    }
  }

  lemma {:induction false} FilterConcat<T(!new)>(p: T -> bool, s: seq<T>, t: seq<T>)
    ensures Filter(p, s + t) == Filter(p, s) + Filter(p, t)
  {
    if t == [] {
      assert s + t == s;
    } else {
      assert (s + t)[..|s + t| - 1] == s + t[..|t| - 1];
      FilterConcat(p, s, t[..|t| - 1]);
    }
  }

  lemma {:induction false} FilterAll<T(!new)>(p: T -> bool, s: seq<T>)
    requires forall x :: x in s ==> p(x)
    ensures Filter(p, s) == s
  {
    if s != [] {
      Unsnoc(s);
      FilterAll(p, s[..|s| - 1]);
    }
  }

  lemma {:induction false} NoneKept<T(!new)>(p: T -> bool, s: seq<T>)
    ensures Filter(p, s) == [] <==> forall x :: x in s ==> !p(x)
  {
    var kept := Filter(p, s);
    assert |kept| > 0 ==> kept[0] in kept;
  }

  lemma {:induction false} FilterDistinct<T(!new)>(p: T -> bool, s: seq<T>)
    requires Distinct(s)
    ensures Distinct(Filter(p, s))
  {
    if s != [] {
      FilterDistinct(p, s[..|s| - 1]);
    }
  }

  lemma {:induction false} FlattenConcat<T>(ss: seq<seq<T>>, tt: seq<seq<T>>)
    ensures Flatten(ss + tt) == Flatten(ss) + Flatten(tt)
  {
    if ss == [] {
      assert ss + tt == tt;
    } else {
      assert (ss + tt)[1..] == ss[1..] + tt;
      FlattenConcat(ss[1..], tt);
    }
  }

  lemma {:induction false} DistinctCount<T>(s: seq<T>, x: T)
    requires Distinct(s)
    ensures multiset(s)[x] == if x in s then 1 else 0
  {
    if s != [] {
      Unsnoc(s);
      DistinctCount(s[..|s| - 1], x);
    }
  }

  lemma {:induction false} DistinctSameMembers<T>(s: seq<T>, t: seq<T>)
    requires Distinct(s) && Distinct(t) && forall x :: x in s <==> x in t
    ensures multiset(s) == multiset(t)
  {
    forall x ensures multiset(s)[x] == multiset(t)[x] {
      DistinctCount(s, x);
      DistinctCount(t, x);
    }
  }

  lemma {:induction false} FilterStep<T(!new)>(p: T -> bool, s: seq<T>, x: T)
    ensures Filter(p, s + [x]) == if p(x) then Filter(p, s) + [x] else Filter(p, s)
  {
    FilterSnoc(p, s, x);
    assert Filter(p, s) + [] == Filter(p, s);
  }

  lemma {:induction false} BucketStep<T(!new), K>(key: T -> K, k: K, s: seq<T>, x: T)
    ensures Bucket(key, k, s + [x]) == if key(x) == k then Bucket(key, k, s) + [x] else Bucket(key, k, s)
  {
    BucketSnoc(key, k, s, x);
    assert Bucket(key, k, s) + [] == Bucket(key, k, s);
  }

  lemma {:induction false} DistinctPermutes<T>(s: seq<T>, t: seq<T>)
    requires Distinct(s) && multiset(s) == multiset(t)
    ensures Distinct(t)
  {
    forall i, j | 0 <= i < j < |t| ensures t[i] != t[j] {
      var a, b := t[..j], t[j..];
      assert t == a + b && multiset(t) == multiset(a) + multiset(b);
      assert a[i] in multiset(a) && b[0] in multiset(b);
      DistinctCount(s, t[i]);
    }
  }

  lemma {:induction false} FiltersCommute<T(!new)>(p: T -> bool, q: T -> bool, s: seq<T>)
    ensures Filter(p, Filter(q, s)) == Filter(q, Filter(p, s))
  {
    if s != [] {
      hide Filter;
      var init, last := s[..|s| - 1], s[|s| - 1];
      Unsnoc(s);
      FiltersCommute(p, q, init);
      FilterStep(p, init, last);
      FilterStep(q, init, last);
      if p(last) && q(last) {
        FilterStep(p, Filter(q, init), last);
        FilterStep(q, Filter(p, init), last);
      } else if p(last) {
        FilterStep(q, Filter(p, init), last);
      } else if q(last) {
        FilterStep(p, Filter(q, init), last);
      }
    }
  }

  lemma {:induction false} BucketOfFilter<T(!new), K>(key: T -> K, k: K, p: T -> bool, s: seq<T>)
    ensures Bucket(key, k, Filter(p, s)) == Filter(p, Bucket(key, k, s))
  {
    if s != [] {
      hide Filter, Bucket;
      var init, last := s[..|s| - 1], s[|s| - 1];
      Unsnoc(s);
      BucketOfFilter(key, k, p, init);
      FilterStep(p, init, last);
      BucketStep(key, k, init, last);
      if p(last) {
        BucketStep(key, k, Filter(p, init), last);
      }
      if key(last) == k {
        FilterStep(p, Bucket(key, k, init), last);
      }
    }
  }

  // ----- Sizes -----

  lemma {:induction false} SetOfSeq<T>(s: seq<T>)
    ensures |set x | x in s| <= |s|
  {
    if s != [] {
      var init := s[..|s| - 1];
      SetOfSeq(init);
      assert (set x | x in s) == (set x | x in init) + {s[|s| - 1]};
    }
  }

  lemma {:induction false} ImageIsSmall<T, U>(s: set<T>, r: set<U>, f: T -> U)
    requires forall y :: y in r ==> exists x :: x in s && y == f(x)
    ensures |r| <= |s|
  {
    if s != {} {
      var x :| x in s;
      ImageIsSmall(s - {x}, r - {f(x)}, f);
    } else {
      assert r == {};
    }
  }

  lemma {:induction false} DistinctIn<T>(s: seq<T>, r: set<T>)
    requires Distinct(s) && forall x :: x in s ==> x in r
    ensures |s| <= |r|
  {
    if s != [] {
      DistinctIn(s[..|s| - 1], r - {s[|s| - 1]});
    }
  }

  // ----- Maps and sums -----

  lemma {:induction false} MapSnoc<T, U>(f: T -> U, s: seq<T>, x: T)
    ensures Map(f, s + [x]) == Map(f, s) + [f(x)]
  {}

  lemma {:induction false} SumSnoc(s: seq<int>, x: int)
    ensures Sum(s + [x]) == Sum(s) + x
  {
    assert (s + [x])[..|s|] == s;
  }

  lemma {:induction false} Removed<T>(t: seq<T>, i: nat)
    requires i < |t|
    ensures multiset(t) == multiset(t[..i] + t[i + 1..]) + multiset{t[i]}
    ensures multiset(t[..i] + t[i + 1..]) == multiset(t) - multiset{t[i]}
  {
    assert t == t[..i] + [t[i]] + t[i + 1..];
  }

  lemma {:induction false} MapWithout<T, U>(f: T -> U, t: seq<T>, i: nat)
    requires i < |t|
    ensures multiset(Map(f, t)) == multiset(Map(f, t[..i] + t[i + 1..])) + multiset{f(t[i])}
  {
    assert Map(f, t[..i] + t[i + 1..]) == Map(f, t)[..i] + Map(f, t)[i + 1..];
    Removed(Map(f, t), i);
  }

  lemma {:induction false} MapPermutes<T, U>(f: T -> U, s: seq<T>, t: seq<T>)
    requires multiset(s) == multiset(t)
    ensures multiset(Map(f, s)) == multiset(Map(f, t))
  {
    SameSize(s, t);
    if s == [] {
      assert Map(f, s) == Map(f, t);
    } else {
      hide Map;
      var n := |s| - 1;
      assert s[n] in t;
      var i :| 0 <= i < |t| && t[i] == s[n];
      Removed(s, n);
      Removed(t, i);
      assert s[..n] + s[n + 1..] == s[..n];
      MapPermutes(f, s[..n], t[..i] + t[i + 1..]);
      MapWithout(f, s, n);
      MapWithout(f, t, i);
    }
  }

  lemma {:induction false} SumConcat(s: seq<int>, t: seq<int>)
    ensures Sum(s + t) == Sum(s) + Sum(t)
  {
    if t == [] {
      assert s + t == s;
    } else {
      assert (s + t)[..|s + t| - 1] == s + t[..|t| - 1];
      SumConcat(s, t[..|t| - 1]);
    }
  }

  lemma {:induction false} SumWithout(t: seq<int>, i: nat)
    requires i < |t|
    ensures Sum(t) == Sum(t[..i] + t[i + 1..]) + t[i]
  {
    assert t == t[..i] + [t[i]] + t[i + 1..];
    SumConcat(t[..i] + [t[i]], t[i + 1..]);
    SumSnoc(t[..i], t[i]);
    SumConcat(t[..i], t[i + 1..]);
  }

  lemma {:induction false} SumPermutes(s: seq<int>, t: seq<int>)
    requires multiset(s) == multiset(t)
    ensures Sum(s) == Sum(t)
  {
    SameSize(s, t);
    if s != [] {
      var n := |s| - 1;
      Unsnoc(s);
      assert s[n] in t;
      var i :| 0 <= i < |t| && t[i] == s[n];
      hide Sum;
      Removed(t, i);
      assert multiset(s[..n]) == multiset(s) - multiset{s[n]};
      SumPermutes(s[..n], t[..i] + t[i + 1..]);
      SumWithout(t, i);
      SumSnoc(s[..n], s[n]);
    }
  }

  // ----- Splitting by a key loses and repeats nothing -----

  function Buckets<T(!new), K(==)>(key: T -> K, keys: seq<K>, s: seq<T>): (r: seq<seq<T>>)
    ensures |r| == |keys| && forall i :: 0 <= i < |keys| ==> r[i] == Bucket(key, keys[i], s)
  {
    seq(|keys|, i requires 0 <= i < |keys| => Bucket(key, keys[i], s))
  }

  lemma {:induction false} BucketsCount<T(!new), K>(key: T -> K, keys: seq<K>, s: seq<T>, x: T)
    requires Distinct(keys)
    ensures multiset(Flatten(Buckets(key, keys, s)))[x] == if key(x) in keys then multiset(s)[x] else 0
  {
    if keys != [] {
      assert Buckets(key, keys, s)[1..] == Buckets(key, keys[1..], s);
      assert forall k :: k in keys <==> k == keys[0] || k in keys[1..];
      BucketsCount(key, keys[1..], s, x);
      BucketCount(key, keys[0], s, x);
    }
  }

  /** Splitting s along distinct keys that cover it is a partition. */
  lemma {:induction false} BucketsPartition<T(!new), K>(key: T -> K, keys: seq<K>, s: seq<T>)
    requires Distinct(keys) && forall x :: x in s ==> key(x) in keys
    ensures multiset(Flatten(Buckets(key, keys, s))) == multiset(s)
  {
    forall x ensures multiset(Flatten(Buckets(key, keys, s)))[x] == multiset(s)[x] {
      BucketsCount(key, keys, s, x);
      assert x in multiset(s) <==> x in s;
    }
  }

  lemma {:induction false} FlattenLength<T>(ss: seq<seq<T>>, lengths: seq<int>)
    requires |lengths| == |ss| && forall i :: 0 <= i < |ss| ==> lengths[i] == |ss[i]|
    ensures |Flatten(ss)| == Sum(lengths)
  {
    if ss != [] {
      var n := |ss| - 1;
      FlattenLength(ss[..n], lengths[..n]);
      assert ss == ss[..n] + [ss[n]];
      FlattenConcat(ss[..n], [ss[n]]);
      assert Flatten([ss[n]]) == ss[n];
    }
  }

  /** The sizes of the buckets add up to the size of the whole. */
  lemma {:induction false} BucketSizesSum<T(!new), K>(key: T -> K, keys: seq<K>, s: seq<T>, sizes: seq<int>)
    requires Distinct(keys) && forall x :: x in s ==> key(x) in keys
    requires |sizes| == |keys| && forall i :: 0 <= i < |keys| ==> sizes[i] == |Bucket(key, keys[i], s)|
    ensures Sum(sizes) == |s|
  {
    BucketsPartition(key, keys, s);
    SameSize(Flatten(Buckets(key, keys, s)), s);
    FlattenLength(Buckets(key, keys, s), sizes);
  }

  // ----- Grouping into a map -----

  /** g holds, under each key that occurs in s, the elements with that key, in order. */
  ghost predicate Grouped<T(!new), K(!new)>(g: map<K, seq<T>>, key: T -> K, s: seq<T>) {
    && (forall x :: x in s ==> key(x) in g)
    && forall k :: k in g ==> g[k] == Bucket(key, k, s) && g[k] != []
  }

  lemma {:induction false} BucketSnoc<T(!new), K>(key: T -> K, k: K, s: seq<T>, x: T)
    ensures Bucket(key, k, s + [x]) == Bucket(key, k, s) + if key(x) == k then [x] else []
  {
    assert (s + [x])[..|s|] == s;
  }

  lemma {:induction false} FilterSnoc<T(!new)>(p: T -> bool, s: seq<T>, x: T)
    ensures Filter(p, s + [x]) == Filter(p, s) + if p(x) then [x] else []
  {
    assert (s + [x])[..|s|] == s;
  }

  lemma {:induction false} EmptyBucket<T(!new), K>(key: T -> K, k: K, s: seq<T>)
    requires forall x :: x in s ==> key(x) != k
    ensures Bucket(key, k, s) == []
  {
    if s != [] {
      EmptyBucket(key, k, s[..|s| - 1]);
    }
  }

  lemma {:induction false} GroupedSnoc<T(!new), K(!new)>(g: map<K, seq<T>>, key: T -> K, s: seq<T>, x: T)
    requires Grouped(g, key, s)
    ensures Grouped(g[key(x) := (if key(x) in g then g[key(x)] else []) + [x]], key, s + [x])
  {
    var g' := g[key(x) := (if key(x) in g then g[key(x)] else []) + [x]];
    if key(x) !in g {
      EmptyBucket(key, key(x), s);
    }
    forall k | k in g' ensures g'[k] == Bucket(key, k, s + [x]) && g'[k] != [] {
      BucketSnoc(key, k, s, x);
    }
  }

  // ----- Sorting -----

  ghost predicate Total<T(!new)>(le: (T, T) -> bool) {
    forall a, b :: le(a, b) || le(b, a)
  }

  ghost predicate Transitive<T(!new)>(le: (T, T) -> bool) {
    forall a, b, c :: le(a, b) && le(b, c) ==> le(a, c)
  }

  ghost predicate Sorted<T>(le: (T, T) -> bool, s: seq<T>) {
    forall i, j :: 0 <= i < j < |s| ==> le(s[i], s[j])
  }

  /** x goes behind everything it does not come strictly before. */
  function Insert<T>(le: (T, T) -> bool, x: T, s: seq<T>): seq<T> {
    if s == [] then [x]
    else if le(s[|s| - 1], x) then s + [x]
    else Insert(le, x, s[..|s| - 1]) + [s[|s| - 1]]
  }

  /** A stable sort: equivalent elements stay in their input order. */
  function SortBy<T>(le: (T, T) -> bool, s: seq<T>): seq<T> {
    if s == [] then [] else Insert(le, s[|s| - 1], SortBy(le, s[..|s| - 1]))
  }

  lemma {:induction false} InsertPermutes<T>(le: (T, T) -> bool, x: T, s: seq<T>)
    ensures multiset(Insert(le, x, s)) == multiset(s) + multiset{x}
    ensures |Insert(le, x, s)| == |s| + 1
  {
    if s != [] {
      Unsnoc(s);
      if !le(s[|s| - 1], x) {
        InsertPermutes(le, x, s[..|s| - 1]);
      }
    }
  }

  lemma {:induction false} SortPermutes<T>(le: (T, T) -> bool, s: seq<T>)
    ensures multiset(SortBy(le, s)) == multiset(s)
    ensures |SortBy(le, s)| == |s|
    ensures forall x :: x in SortBy(le, s) <==> x in s
  {
    if s != [] {
      Unsnoc(s);
      SortPermutes(le, s[..|s| - 1]);
      InsertPermutes(le, s[|s| - 1], SortBy(le, s[..|s| - 1]));
    }
    SameSize(SortBy(le, s), s);
  }

  lemma {:induction false} InsertSorts<T(!new)>(le: (T, T) -> bool, x: T, s: seq<T>)
    requires Total(le) && Transitive(le) && Sorted(le, s)
    ensures Sorted(le, Insert(le, x, s))
  {
    if s != [] {
      var last := s[|s| - 1];
      if !le(last, x) {
        InsertSorts(le, x, s[..|s| - 1]);
        InsertPermutes(le, x, s[..|s| - 1]);
        var r := Insert(le, x, s[..|s| - 1]);
        forall i | 0 <= i < |r| ensures le(r[i], last) {
          assert r[i] in multiset(r);
          assert r[i] in s[..|s| - 1] || r[i] == x;
        }
      }
    }
  }

  lemma {:induction false} SortSorts<T(!new)>(le: (T, T) -> bool, s: seq<T>)
    requires Total(le) && Transitive(le)
    ensures Sorted(le, SortBy(le, s))
  {
    if s != [] {
      SortSorts(le, s[..|s| - 1]);
      InsertSorts(le, s[|s| - 1], SortBy(le, s[..|s| - 1]));
    }
  }

  lemma {:induction false} LastAgrees<T>(le: (T, T) -> bool, s: seq<T>, t: seq<T>)
    requires (forall x :: x in s <==> x in t) && Sorted(le, s) && Sorted(le, t) && s != [] && t != []
    requires forall a, b :: a in s && b in s && le(a, b) && le(b, a) ==> a == b
    ensures s[|s| - 1] == t[|t| - 1]
  {
    var m, n := s[|s| - 1], t[|t| - 1];
    assert m in t && n in s;
  }

  lemma {:induction false} WithoutLast<T>(s: seq<T>, t: seq<T>)
    requires multiset(s) == multiset(t) && s != [] && t != [] && s[|s| - 1] == t[|t| - 1]
    ensures multiset(s[..|s| - 1]) == multiset(t[..|t| - 1])
  {
    var x := s[|s| - 1];
    Unsnoc(s);
    Unsnoc(t);
    assert multiset(s) - multiset{x} == multiset(s[..|s| - 1]);
    assert multiset(t) - multiset{x} == multiset(t[..|t| - 1]);
  }

  /** Where no two different members tie, there is only one sorted order. */
  lemma {:induction false} SortedIsUnique<T>(le: (T, T) -> bool, s: seq<T>, t: seq<T>)
    requires multiset(s) == multiset(t) && Sorted(le, s) && Sorted(le, t)
    requires forall a, b :: a in s && b in s && le(a, b) && le(b, a) ==> a == b
    ensures s == t
  {
    SameSize(s, t);
    if s != [] {
      LastAgrees(le, s, t);
      WithoutLast(s, t);
      SortedIsUnique(le, s[..|s| - 1], t[..|t| - 1]);
      assert s == s[..|s| - 1] + [s[|s| - 1]] && t == t[..|t| - 1] + [t[|t| - 1]];
    }
  }

  lemma {:induction false} InsertMaps<T, U>(f: T -> U, le: (T, T) -> bool, le': (U, U) -> bool, x: T, s: seq<T>)
    requires forall a, b :: (a in s || a == x) && (b in s || b == x) ==> le(a, b) == le'(f(a), f(b))
    ensures Map(f, Insert(le, x, s)) == Insert(le', f(x), Map(f, s))
  {
    if s != [] {
      Unsnoc(s);
      assert Map(f, s)[..|s| - 1] == Map(f, s[..|s| - 1]);
      if !le(s[|s| - 1], x) {
        InsertMaps(f, le, le', x, s[..|s| - 1]);
      }
    }
  }

  /** Sorting commutes with a change of elements the order cannot see. */
  lemma {:induction false} SortMaps<T, U>(f: T -> U, le: (T, T) -> bool, le': (U, U) -> bool, s: seq<T>)
    requires forall a, b :: a in s && b in s ==> le(a, b) == le'(f(a), f(b))
    ensures Map(f, SortBy(le, s)) == SortBy(le', Map(f, s))
  {
    if s != [] {
      Unsnoc(s);
      assert Map(f, s)[..|s| - 1] == Map(f, s[..|s| - 1]);
      SortMaps(f, le, le', s[..|s| - 1]);
      SortPermutes(le, s[..|s| - 1]);
      InsertMaps(f, le, le', s[|s| - 1], SortBy(le, s[..|s| - 1]));
    }
  }
}
