/** Materialised volumes: every seed repository cloned factor - 1 times, and the clones recalled again. */
module StoreVolumes {
  import opened Text
  import opened Seqs
  import opened StorePaths
  import opened StoreState

  function CloneName(seed: string, round: nat): string { seed + "-v" + Decimal(round) }

  function OutsideOf(names: set<string>): Repository -> bool { (r: Repository) => r.name !in names }

  /** The state without the repositories of these names and everything kept under the names. */
  function Without(s: State, names: set<string>): State {
    s.(repositories := Filter(OutsideOf(names), s.repositories),
       assets := s.assets - names, acls := s.acls - names, connStatus := s.connStatus - names)
  }

  function Names(names: seq<string>): set<string> { set n | n in names }

  function AddClone(s: State, seed: Repository, round: nat): State {
    var name := CloneName(seed.name, round);
    s.(repositories := s.repositories + [seed.(id := seed.id + round * 1_000_000, name := name)],
       assets := if seed.name in s.assets then s.assets[name := s.assets[seed.name]] else s.assets,
       connStatus := if seed.name in s.connStatus then s.connStatus[name := s.connStatus[seed.name]] else s.connStatus,
       acls := if seed.name in s.acls then s.acls[name := s.acls[seed.name]] else s.acls,
       volumeClones := s.volumeClones + [name])
  }

  function AddRound(s: State, seeds: seq<Repository>, round: nat): State {
    if seeds == [] then s else AddClone(AddRound(s, seeds[..|seeds| - 1], round), seeds[|seeds| - 1], round)
  }

  function AddRounds(s: State, seeds: seq<Repository>, rounds: nat): State {
    if rounds == 0 then s else AddRound(AddRounds(s, seeds, rounds - 1), seeds, rounds)
  }

  /** The state with the previous clones recalled. */
  function Recalled(s: State, factor: int): State {
    Without(s, Names(s.volumeClones)).(volumeClones := [], volumeFactor := factor)
  }

  function Reconcile(s: State, factor: int): State {
    if s.volumeFactor == factor then s
    else
      var base := Recalled(s, factor);
      if factor <= 1 then base else AddRounds(base, base.repositories, factor - 1)
  }

  // ----- Clone names -----

  lemma {:induction false} CloneNameIsInjective(a: string, r: nat, b: string, q: nat)
    ensures CloneName(a, r) == CloneName(b, q) <==> a == b && r == q
  {
    var m, n := Decimal(r), Decimal(q);
    if CloneName(a, r) == CloneName(b, q) {
      var s := CloneName(a, r);
      assert s[|s| - |m| - 1] == 'v' && s[|s| - |n| - 1] == 'v';
      assert forall i :: |s| - |m| <= i < |s| ==> IsDigit(s[i]) by {
        assert forall i :: |s| - |m| <= i < |s| ==> s[i] == m[i - (|s| - |m|)];
      }
      assert forall i :: |s| - |n| <= i < |s| ==> IsDigit(s[i]) by {
        assert forall i :: |s| - |n| <= i < |s| ==> s[i] == n[i - (|s| - |n|)];
      }
      assert |m| == |n|;
      assert m == s[|s| - |m|..] && n == s[|s| - |n|..];
      DecimalIsInjective(r, q);
      assert a == s[..|s| - |m| - 2] && b == s[..|s| - |n| - 2];
    }
  }

  function NameOf(r: Repository): string { r.name }

  /** The names that materialising gives to clones. */
  ghost predicate IsCloneName(name: string, seeds: seq<Repository>, rounds: int) {
    exists seed, r :: seed in seeds && 1 <= r <= rounds && name == CloneName(seed.name, r)
  }

  /** No repository and no key of a map has a clone's name. */
  ghost predicate NoCollision(s: State, rounds: int) {
    && NoNameCollision(s, rounds)
    && forall n :: n in s.assets || n in s.acls || n in s.connStatus ==> !IsCloneName(n, s.repositories, rounds)
  }

  ghost predicate NoNameCollision(s: State, rounds: int) {
    forall r :: r in s.repositories ==> !IsCloneName(r.name, s.repositories, rounds)
  }

  lemma {:induction false} ClonesOfRound(s: State, seeds: seq<Repository>, round: nat)
    ensures AddRound(s, seeds, round).volumeClones
         == s.volumeClones + seq(|seeds|, i requires 0 <= i < |seeds| => CloneName(seeds[i].name, round))
  {
    if seeds != [] {
      ClonesOfRound(s, seeds[..|seeds| - 1], round);
    }
  }

  lemma {:induction false} ClonesOfRounds(s: State, seeds: seq<Repository>, rounds: nat)
    ensures forall n :: n in AddRounds(s, seeds, rounds).volumeClones <==>
              n in s.volumeClones || IsCloneName(n, seeds, rounds)
  {
    if rounds > 0 {
      ClonesOfRounds(s, seeds, rounds - 1);
      ClonesOfRound(AddRounds(s, seeds, rounds - 1), seeds, rounds);
      var added := seq(|seeds|, i requires 0 <= i < |seeds| => CloneName(seeds[i].name, rounds));
      forall n ensures n in added || IsCloneName(n, seeds, rounds - 1) <==> IsCloneName(n, seeds, rounds) {
        if n in added {
          var i :| 0 <= i < |added| && added[i] == n;
          assert seeds[i] in seeds;
        }
        if IsCloneName(n, seeds, rounds) && !IsCloneName(n, seeds, rounds - 1) {
          var seed, r :| seed in seeds && 1 <= r <= rounds && n == CloneName(seed.name, r);
          var i :| 0 <= i < |seeds| && seeds[i] == seed;
          assert r == rounds && added[i] == n;
        }
      }
    }
  }

  // ----- Recalling undoes materialising -----

  lemma {:induction false} WithoutClone(s: State, seed: Repository, round: nat, names: set<string>, clones: seq<string>)
    requires CloneName(seed.name, round) in names
    ensures Without(AddClone(s, seed, round), names).(volumeClones := clones)
         == Without(s, names).(volumeClones := clones)
  {
    hide Filter, CloneName;
    var t := AddClone(s, seed, round);
    FilterStep(OutsideOf(names), s.repositories,
               seed.(id := seed.id + round * 1_000_000, name := CloneName(seed.name, round)));
    assert t.assets - names == s.assets - names && t.acls - names == s.acls - names
           && t.connStatus - names == s.connStatus - names;
  }

  lemma {:induction false} WithoutRound(
      s: State, seeds: seq<Repository>, round: nat, names: set<string>, clones: seq<string>)
    requires forall seed :: seed in seeds ==> CloneName(seed.name, round) in names
    ensures Without(AddRound(s, seeds, round), names).(volumeClones := clones)
         == Without(s, names).(volumeClones := clones)
  {
    if seeds != [] {
      hide Without, AddClone, CloneName;
      WithoutRound(s, seeds[..|seeds| - 1], round, names, clones);
      WithoutClone(AddRound(s, seeds[..|seeds| - 1], round), seeds[|seeds| - 1], round, names, clones);
    }
  }

  lemma {:induction false} CloneNamesGrow(seeds: seq<Repository>, rounds: nat)
    requires rounds > 0
    ensures forall n :: IsCloneName(n, seeds, rounds - 1) ==> IsCloneName(n, seeds, rounds)
    ensures forall seed :: seed in seeds ==> IsCloneName(CloneName(seed.name, rounds), seeds, rounds)
  {
    hide CloneName;
  }

  lemma {:induction false} WithoutRounds(
      s: State, seeds: seq<Repository>, rounds: nat, names: set<string>, clones: seq<string>)
    requires forall n :: IsCloneName(n, seeds, rounds) ==> n in names
    ensures Without(AddRounds(s, seeds, rounds), names).(volumeClones := clones)
         == Without(s, names).(volumeClones := clones)
  {
    if rounds > 0 {
      assert AddRounds(s, seeds, rounds) == AddRound(AddRounds(s, seeds, rounds - 1), seeds, rounds);
      hide *;
      CloneNamesGrow(seeds, rounds);
      WithoutRounds(s, seeds, rounds - 1, names, clones);
      WithoutRound(AddRounds(s, seeds, rounds - 1), seeds, rounds, names, clones);
    }
  }

  /** The names are absent from the state exactly when taking them away changes nothing. */
  lemma {:induction false} WithoutNothing(s: State, names: set<string>)
    ensures Without(s, names) == s <==>
              && (forall r :: r in s.repositories ==> r.name !in names)
              && forall n :: n in names ==> n !in s.assets && n !in s.acls && n !in s.connStatus
  {
    if forall r :: r in s.repositories ==> r.name !in names {
      FilterAll(OutsideOf(names), s.repositories);
    }
    if forall n :: n in names ==> n !in s.assets && n !in s.acls && n !in s.connStatus {
      assert s.assets - names == s.assets && s.acls - names == s.acls && s.connStatus - names == s.connStatus;
    }
    if Without(s, names) == s {
      assert forall r :: r in s.repositories ==> r in Filter(OutsideOf(names), s.repositories);
      assert forall n :: n in names ==> n !in s.assets - names && n !in s.acls - names && n !in s.connStatus - names;
    }
  }

  /** A state as the store starts: the seeds alone. */
  ghost predicate SeedsOnly(s: State) { s.volumeFactor == 1 && s.volumeClones == [] }

  lemma {:induction false} ClonesAreNamed(base: State, factor: int)
    requires SeedsOnly(base) && factor > 1
    ensures Reconcile(base, factor) == AddRounds(base.(volumeFactor := factor), base.repositories, factor - 1)
    ensures forall n :: n in Names(Reconcile(base, factor).volumeClones) <==>
              IsCloneName(n, base.repositories, factor - 1)
  {
    hide AddRounds, Filter, IsCloneName;
    assert Names([]) == {};
    WithoutNothing(base, {});
    ClonesOfRounds(base.(volumeFactor := factor), base.repositories, factor - 1);
  }

  lemma {:induction false} FactorUntouchedByRounds(s: State, seeds: seq<Repository>, rounds: nat)
    ensures AddRounds(s, seeds, rounds).volumeFactor == s.volumeFactor
  {
    if rounds > 0 {
      FactorUntouchedByRounds(s, seeds, rounds - 1);
      FactorUntouchedByRound(AddRounds(s, seeds, rounds - 1), seeds, rounds);
    }
  }

  lemma {:induction false} FactorUntouchedByRound(s: State, seeds: seq<Repository>, round: nat)
    ensures AddRound(s, seeds, round).volumeFactor == s.volumeFactor
  {
    if seeds != [] {
      FactorUntouchedByRound(s, seeds[..|seeds| - 1], round);
    }
  }

  /** What recalling leaves of a materialised volume: the seeds, unless one of their names is a clone's. */
  lemma {:induction false} RecalledVolume(base: State, factor: int, factor': int)
    requires SeedsOnly(base)
    ensures var names := if factor > 1 then Names(Reconcile(base, factor).volumeClones) else {};
            Recalled(Reconcile(base, factor), factor') == Without(base, names).(volumeFactor := factor')
  {
    hide AddRounds, IsCloneName, Filter;
    assert Names([]) == {};
    WithoutNothing(base, {});
    if factor > 1 {
      ClonesAreNamed(base, factor);
      var t := base.(volumeFactor := factor);
      var names := Names(Reconcile(base, factor).volumeClones);
      WithoutRounds(t, base.repositories, factor - 1, names, []);
      assert Without(t, names) == Without(base, names).(volumeFactor := factor);
    }
  }

  lemma {:induction false} FactorOf(base: State, f: int)
    requires SeedsOnly(base)
    ensures Reconcile(base, f).volumeFactor == f
  {
    if f > 1 {
      ClonesAreNamed(base, f);
      FactorUntouchedByRounds(base.(volumeFactor := f), base.repositories, f - 1);
    }
  }

  /** The names to recall, and when nothing of the seeds has one of them. */
  lemma {:induction false} RecallNames(base: State, factor: int, names: set<string>)
    requires SeedsOnly(base)
    requires names == if factor > 1 then Names(Reconcile(base, factor).volumeClones) else {}
    ensures Without(base, names) == base <==> NoCollision(base, factor - 1)
  {
    hide AddRounds, Recalled, Without, Reconcile;
    WithoutNothing(base, names);
    if factor > 1 {
      ClonesAreNamed(base, factor);
    }
    assert forall n :: n in names <==> IsCloneName(n, base.repositories, factor - 1);
  }

  /** Materialising to any factor and going back to 1 restores the state exactly when no repository
      and no key has a clone's name. */
  lemma {:induction false} RecallRestoresIffNoCollision(base: State, factor: int)
    requires SeedsOnly(base)
    ensures Reconcile(Reconcile(base, factor), 1) == base <==> NoCollision(base, factor - 1)
  {
    hide AddRounds, Recalled, Without, NoCollision;
    FactorOf(base, factor);
    RecalledVolume(base, factor, 1);
    var names := if factor > 1 then Names(Reconcile(base, factor).volumeClones) else {};
    RecallNames(base, factor, names);
    FactorUntouched(base, names);
    if factor == 1 {
      WithoutNothing(base, {});
    }
  }

  lemma {:induction false} FactorUntouched(s: State, names: set<string>)
    ensures Without(s, names).volumeFactor == s.volumeFactor
  {}

  function ReconcileAll(s: State, factors: seq<int>): State {
    if factors == [] then s else Reconcile(ReconcileAll(s, factors[..|factors| - 1]), factors[|factors| - 1])
  }

  /** Over any sequence of factors only the last one matters, when no name collides. */
  lemma {:induction false} VolumesForgetHistory(base: State, factors: seq<int>)
    requires SeedsOnly(base) && factors != []
    requires forall i :: 0 <= i < |factors| ==> NoCollision(base, factors[i] - 1)
    ensures ReconcileAll(base, factors) == Reconcile(base, factors[|factors| - 1])
  {
    var init, g := factors[..|factors| - 1], factors[|factors| - 1];
    if init != [] {
      VolumesForgetHistory(base, init);
      HistoryStep(base, init[|init| - 1], g);
    } else {
      assert ReconcileAll(base, init) == base;
    }
  }

  lemma {:induction false} HistoryStep(base: State, f: int, g: int)
    requires SeedsOnly(base) && NoCollision(base, f - 1)
    ensures Reconcile(Reconcile(base, f), g) == Reconcile(base, g)
  {
    hide AddRounds, Recalled, Without, NoCollision;
    var names := if f > 1 then Names(Reconcile(base, f).volumeClones) else {};
    FactorOf(base, f);
    RecalledVolume(base, f, g);
    RecalledVolume(base, 1, g);
    RecallNames(base, f, names);
    WithoutNothing(base, {});
  }

  // ----- Names stay unique -----

  ghost predicate UniqueNames(s: State) { Distinct(Map(NameOf, s.repositories)) }

  lemma {:induction false} NamesOfRound(s: State, seeds: seq<Repository>, round: nat)
    ensures Map(NameOf, AddRound(s, seeds, round).repositories)
         == Map(NameOf, s.repositories) + seq(|seeds|, i requires 0 <= i < |seeds| => CloneName(seeds[i].name, round))
  {
    if seeds != [] {
      NamesOfRound(s, seeds[..|seeds| - 1], round);
    }
  }

  lemma {:induction false} UniqueInRounds(s: State, seeds: seq<Repository>, rounds: nat)
    requires s.repositories == seeds && UniqueNames(s)
    ensures forall n :: n in Map(NameOf, AddRounds(s, seeds, rounds).repositories)
              <==> n in Map(NameOf, seeds) || IsCloneName(n, seeds, rounds)
    ensures UniqueNames(AddRounds(s, seeds, rounds)) <==> NoNameCollision(s, rounds)
  {
    var names := Map(NameOf, seeds);
    if rounds > 0 {
      UniqueInRounds(s, seeds, rounds - 1);
      var t := AddRounds(s, seeds, rounds - 1);
      var before := Map(NameOf, t.repositories);
      var added := seq(|seeds|, i requires 0 <= i < |seeds| => CloneName(seeds[i].name, rounds));
      NamesOfRound(t, seeds, rounds);
      AddedNames(seeds, rounds, added);
      DistinctConcat(before, added);
      forall n | n in before && n in added ensures n in names {
        if IsCloneName(n, seeds, rounds - 1) {
          NamesOfDifferentRounds(n, seeds, rounds, added);
        }
      }
      CollisionSplits(s, rounds, names, added);
    }
  }

  lemma {:induction false} AddedNames(seeds: seq<Repository>, rounds: nat, added: seq<string>)
    requires rounds > 0 && added == seq(|seeds|, i requires 0 <= i < |seeds| => CloneName(seeds[i].name, rounds))
    requires Distinct(Map(NameOf, seeds))
    ensures Distinct(added)
    ensures forall n :: n in added || IsCloneName(n, seeds, rounds - 1) <==> IsCloneName(n, seeds, rounds)
  {
    hide CloneName;
    forall i, j | 0 <= i < j < |added| ensures added[i] != added[j] {
      assert Map(NameOf, seeds)[i] != Map(NameOf, seeds)[j];
      CloneNameIsInjective(seeds[i].name, rounds, seeds[j].name, rounds);
    }
    forall n ensures n in added || IsCloneName(n, seeds, rounds - 1) <==> IsCloneName(n, seeds, rounds) {
      if n in added {
        var i :| 0 <= i < |added| && added[i] == n;
        assert seeds[i] in seeds;
      }
      if IsCloneName(n, seeds, rounds) && !IsCloneName(n, seeds, rounds - 1) {
        var seed, r :| seed in seeds && 1 <= r <= rounds && n == CloneName(seed.name, r);
        var i :| 0 <= i < |seeds| && seeds[i] == seed;
        assert r == rounds && added[i] == n;
      }
    }
  }

  lemma {:induction false} NamesOfDifferentRounds(n: string, seeds: seq<Repository>, rounds: nat, added: seq<string>)
    requires rounds > 0 && added == seq(|seeds|, i requires 0 <= i < |seeds| => CloneName(seeds[i].name, rounds))
    requires IsCloneName(n, seeds, rounds - 1)
    ensures n !in added
  {
    hide CloneName;
    var seed, r :| seed in seeds && 1 <= r <= rounds - 1 && n == CloneName(seed.name, r);
    forall i | 0 <= i < |added| ensures added[i] != n {
      CloneNameIsInjective(seeds[i].name, rounds, seed.name, r);
    }
  }

  lemma {:induction false} CollisionSplits(s: State, rounds: nat, names: seq<string>, added: seq<string>)
    requires rounds > 0 && names == Map(NameOf, s.repositories)
    requires forall n :: n in added || IsCloneName(n, s.repositories, rounds - 1) <==>
               IsCloneName(n, s.repositories, rounds)
    ensures NoNameCollision(s, rounds) <==> NoNameCollision(s, rounds - 1) && forall n :: n in names ==> n !in added
  {
    hide IsCloneName;
    forall r | r in s.repositories ensures r.name in names {
      var i :| 0 <= i < |s.repositories| && s.repositories[i] == r;
      assert names[i] == r.name;
    }
    forall n | n in names ensures exists r :: r in s.repositories && r.name == n {
      var i :| 0 <= i < |names| && names[i] == n;
      assert s.repositories[i] in s.repositories;
    }
  }

  lemma {:induction false} DistinctConcat<T(!new)>(s: seq<T>, t: seq<T>)
    requires Distinct(t)
    ensures Distinct(s + t) <==> Distinct(s) && forall x :: x in s ==> x !in t
  {
    if Distinct(s + t) {
      forall i, j | 0 <= i < j < |s| ensures s[i] != s[j] {
        assert (s + t)[i] == s[i] && (s + t)[j] == s[j];
      }
      forall x | x in s ensures x !in t {
        var i :| 0 <= i < |s| && s[i] == x;
        assert (s + t)[i] == x;
        forall j | 0 <= j < |t| ensures t[j] != x {
          assert (s + t)[|s| + j] == t[j];
        }
      }
    }
    if Distinct(s) && forall x :: x in s ==> x !in t {
      forall i, j | 0 <= i < j < |s + t| ensures (s + t)[i] != (s + t)[j] {
        assert i < |s| ==> s[i] in s && s[i] !in t;
      }
    }
  }

  /** Materialising unique names gives unique names exactly when no seed has a clone's name. */
  lemma {:induction false} VolumeNamesUniqueIffNoCollision(base: State, factor: int)
    requires SeedsOnly(base) && UniqueNames(base) && factor > 1
    ensures UniqueNames(Reconcile(base, factor)) <==> NoNameCollision(base, factor - 1)
  {
    ClonesAreNamed(base, factor);
    UniqueInRounds(base.(volumeFactor := factor), base.repositories, factor - 1);
  }
}
