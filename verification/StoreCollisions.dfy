/** What a volume holds, and what it leaves behind when names collide with the names of its clones. */
module StoreCollisions {
  import opened Text
  import opened Seqs
  import opened StorePaths
  import opened StoreState
  import opened StoreVolumes

  // ----- One map of the store under materialising -----

  function CopyTo<V>(m: map<string, V>, from: string, to: string): map<string, V> {
    if from in m then m[to := m[from]] else m
  }

  function MapRound<V>(m: map<string, V>, seeds: seq<Repository>, round: nat): map<string, V> {
    if seeds == [] then m
    else
      var name := seeds[|seeds| - 1].name;
      CopyTo(MapRound(m, seeds[..|seeds| - 1], round), name, CloneName(name, round))
  }

  function MapRounds<V>(m: map<string, V>, seeds: seq<Repository>, rounds: nat): map<string, V> {
    if rounds == 0 then m else MapRound(MapRounds(m, seeds, rounds - 1), seeds, rounds)
  }

  function WithMaps(s: State, t: State): State {
    s.(assets := t.assets, acls := t.acls, connStatus := t.connStatus)
  }

  function RoundOfMaps(s: State, seeds: seq<Repository>, round: nat): State {
    s.(assets := MapRound(s.assets, seeds, round), acls := MapRound(s.acls, seeds, round),
       connStatus := MapRound(s.connStatus, seeds, round))
  }

  function RoundsOfMaps(s: State, seeds: seq<Repository>, rounds: nat): State {
    s.(assets := MapRounds(s.assets, seeds, rounds), acls := MapRounds(s.acls, seeds, rounds),
       connStatus := MapRounds(s.connStatus, seeds, rounds))
  }

  lemma {:induction false} MapsOfRound(s: State, t: State, seeds: seq<Repository>, round: nat)
    ensures AddRound(WithMaps(s, t), seeds, round) == WithMaps(AddRound(s, seeds, round), RoundOfMaps(t, seeds, round))
  {
    hide CloneName;
    if seeds != [] {
      MapsOfRound(s, t, seeds[..|seeds| - 1], round);
    }
  }

  /** Materialising treats each map by itself. */
  lemma {:induction false} MapsOfRounds(s: State, t: State, seeds: seq<Repository>, rounds: nat)
    ensures AddRounds(WithMaps(s, t), seeds, rounds)
         == WithMaps(AddRounds(s, seeds, rounds), RoundsOfMaps(t, seeds, rounds))
  {
    hide AddRound, MapRound;
    if rounds > 0 {
      MapsOfRounds(s, t, seeds, rounds - 1);
      MapsOfRound(AddRounds(s, seeds, rounds - 1), RoundsOfMaps(t, seeds, rounds - 1), seeds, rounds);
    }
  }

  // ----- Two runs that start apart -----

  ghost predicate Same<V>(a: map<string, V>, b: map<string, V>, k: string) {
    (k in a <==> k in b) && (k in a ==> a[k] == b[k])
  }

  /** The second map lacks some of these names, and is the same otherwise. */
  ghost predicate LacksOf<V>(a: map<string, V>, b: map<string, V>, names: set<string>) {
    forall k :: Same(a, b, k) || (k in names && k in a && k !in b)
  }

  lemma {:induction false} RoundKeepsLacking<V>(a: map<string, V>, b: map<string, V>, names: set<string>,
                                                seeds: seq<Repository>, round: nat)
    requires LacksOf(a, b, names) && forall seed :: seed in seeds ==> seed.name !in names
    ensures LacksOf(MapRound(a, seeds, round), MapRound(b, seeds, round), names)
  {
    hide CloneName;
    if seeds != [] {
      RoundKeepsLacking(a, b, names, seeds[..|seeds| - 1], round);
      var c, d := MapRound(a, seeds[..|seeds| - 1], round), MapRound(b, seeds[..|seeds| - 1], round);
      assert seeds[|seeds| - 1] in seeds && Same(c, d, seeds[|seeds| - 1].name);
    }
  }

  lemma {:induction false} RoundsKeepLacking<V>(a: map<string, V>, b: map<string, V>, names: set<string>,
                                                seeds: seq<Repository>, rounds: nat)
    requires LacksOf(a, b, names) && forall seed :: seed in seeds ==> seed.name !in names
    ensures LacksOf(MapRounds(a, seeds, rounds), MapRounds(b, seeds, rounds), names)
  {
    hide LacksOf, MapRound;
    if rounds > 0 {
      RoundsKeepLacking(a, b, names, seeds, rounds - 1);
      RoundKeepsLacking(MapRounds(a, seeds, rounds - 1), MapRounds(b, seeds, rounds - 1), names, seeds, rounds);
    }
  }

  // ----- Which names materialising writes -----

  lemma {:induction false} RoundSkips<V>(m: map<string, V>, seeds: seq<Repository>, round: nat, k: string)
    requires forall seed :: seed in seeds ==> k != CloneName(seed.name, round)
    ensures Same(MapRound(m, seeds, round), m, k)
  {
    hide CloneName;
    if seeds != [] {
      assert seeds[|seeds| - 1] in seeds;
      RoundSkips(m, seeds[..|seeds| - 1], round, k);
    }
  }

  /** A clone's name is written when the seed has an entry. */
  lemma {:induction false} RoundWrites<V>(m: map<string, V>, seeds: seq<Repository>, round: nat, seed: Repository)
    requires seed in seeds
    requires forall x, y :: x in seeds && y in seeds ==> x.name != CloneName(y.name, round)
    ensures var k := CloneName(seed.name, round);
            && (k in MapRound(m, seeds, round) <==> k in m || seed.name in m)
            && (seed.name in m ==> MapRound(m, seeds, round)[k] == m[seed.name])
  {
    hide CloneName;
    var init, last := seeds[..|seeds| - 1], seeds[|seeds| - 1];
    assert seeds == init + [last];
    RoundSkips(m, init, round, last.name);
    if seed in init {
      RoundWrites(m, init, round, seed);
      if last.name != seed.name {
        CloneNameIsInjective(seed.name, round, last.name, round);
      }
    } else {
      forall x | x in init && x.name != seed.name ensures CloneName(x.name, round) != CloneName(seed.name, round) {
        CloneNameIsInjective(x.name, round, seed.name, round);
      }
      assert seed == last;
      if exists x :: x in init && x.name == last.name {
        var x :| x in init && x.name == last.name;
        RoundWrites(m, init, round, x);
      } else {
        RoundSkips(m, init, round, CloneName(seed.name, round));
      }
    }
  }

  lemma {:induction false} RoundsSkip<V>(m: map<string, V>, seeds: seq<Repository>, rounds: nat, k: string)
    requires !IsCloneName(k, seeds, rounds)
    ensures Same(MapRounds(m, seeds, rounds), m, k)
  {
    if rounds > 0 {
      CloneNamesGrow(seeds, rounds);
      hide IsCloneName, MapRound, CloneName;
      RoundsSkip(m, seeds, rounds - 1, k);
      RoundSkips(MapRounds(m, seeds, rounds - 1), seeds, rounds, k);
    }
  }

  /** No seed has the name of a clone of the first rounds. */
  ghost predicate Apart(seeds: seq<Repository>, rounds: int) {
    forall seed :: seed in seeds ==> !IsCloneName(seed.name, seeds, rounds)
  }

  lemma {:induction false} RoundsWrite<V>(m: map<string, V>, seeds: seq<Repository>, rounds: nat, apart: int,
                                          seed: Repository, round: nat)
    requires Apart(seeds, apart) && seed in seeds && 1 <= round <= apart
    ensures var k := CloneName(seed.name, round);
            k in MapRounds(m, seeds, rounds) <==> k in m || (round <= rounds && seed.name in m)
  {
    if rounds > 0 {
      RoundsWrite(m, seeds, rounds - 1, apart, seed, round);
      var k, before := CloneName(seed.name, round), MapRounds(m, seeds, rounds - 1);
      hide CloneName, MapRound;
      if round == rounds {
        assert IsCloneName(k, seeds, apart);
        assert !IsCloneName(seed.name, seeds, rounds - 1);
        RoundsSkip(m, seeds, rounds - 1, seed.name);
        RoundWrites(before, seeds, rounds, seed);
      } else {
        forall x | x in seeds ensures k != CloneName(x.name, rounds) {
          CloneNameIsInjective(seed.name, round, x.name, rounds);
        }
        RoundSkips(before, seeds, rounds, k);
      }
    }
  }

  // ----- What a volume holds -----

  function Rounds(factor: int): nat { if factor <= 1 then 0 else factor - 1 }

  /** Materialising from the seeds alone. */
  lemma {:induction false} FromSeeds(base: State, factor: int)
    requires SeedsOnly(base)
    ensures Reconcile(base, factor)
         == AddRounds(base.(volumeFactor := factor), base.repositories, Rounds(factor))
  {
    hide AddRound;
    assert Names([]) == {};
    WithoutNothing(base, {});
  }

  lemma {:induction false} ApartBefore(seeds: seq<Repository>, rounds: nat)
    requires Apart(seeds, rounds) && rounds > 0
    ensures Apart(seeds, rounds - 1)
    ensures forall x, y :: x in seeds && y in seeds ==> x.name != CloneName(y.name, rounds)
  {
    CloneNamesGrow(seeds, rounds);
    hide CloneName, IsCloneName;
  }

  lemma {:induction false} OtherRounds(seeds: seq<Repository>, seed: Repository, r: nat, rounds: nat)
    requires r != rounds
    ensures forall x :: x in seeds ==> CloneName(seed.name, r) != CloneName(x.name, rounds)
  {
    hide CloneName;
    forall x | x in seeds ensures CloneName(seed.name, r) != CloneName(x.name, rounds) {
      CloneNameIsInjective(seed.name, r, x.name, rounds);
    }
  }

  /** A clone's entry is its seed's. */
  lemma {:induction false} RoundsCopy<V>(
      m: map<string, V>, seeds: seq<Repository>, rounds: nat, seed: Repository, r: nat)
    requires Apart(seeds, rounds) && seed in seeds && 1 <= r <= rounds && seed.name in m
    ensures var k := CloneName(seed.name, r);
            k in MapRounds(m, seeds, rounds) && MapRounds(m, seeds, rounds)[k] == m[seed.name]
  {
    var before := MapRounds(m, seeds, rounds - 1);
    assert MapRounds(m, seeds, rounds) == MapRound(before, seeds, rounds);
    ApartBefore(seeds, rounds);
    hide CloneName, MapRound, MapRounds, IsCloneName;
    if r == rounds {
      RoundsSkip(m, seeds, rounds - 1, seed.name);
      RoundWrites(before, seeds, rounds, seed);
    } else {
      RoundsCopy(m, seeds, rounds - 1, seed, r);
      OtherRounds(seeds, seed, r, rounds);
      RoundSkips(before, seeds, rounds, CloneName(seed.name, r));
    }
  }

  /** The clone of a seed in a round. */
  function CloneOf(seed: Repository, r: nat): Repository {
    seed.(id := seed.id + r * 1_000_000, name := seed.name + "-v" + Decimal(r))
  }

  lemma {:induction false} RoundRepositories(s: State, seeds: seq<Repository>, round: nat)
    ensures AddRound(s, seeds, round).repositories
         == s.repositories + seq(|seeds|, i requires 0 <= i < |seeds| => CloneOf(seeds[i], round))
  {
    if seeds != [] {
      RoundRepositories(s, seeds[..|seeds| - 1], round);
    }
  }

  lemma {:induction false} RoundsRepositories(s: State, seeds: seq<Repository>, rounds: nat)
    ensures forall x :: x in AddRounds(s, seeds, rounds).repositories <==>
              x in s.repositories || exists seed, r :: seed in seeds && 1 <= r <= rounds && x == CloneOf(seed, r)
    ensures s.repositories <= AddRounds(s, seeds, rounds).repositories
  {
    if rounds > 0 {
      hide AddRound, CloneOf;
      RoundsRepositories(s, seeds, rounds - 1);
      RoundRepositories(AddRounds(s, seeds, rounds - 1), seeds, rounds);
      var added := seq(|seeds|, i requires 0 <= i < |seeds| => CloneOf(seeds[i], rounds));
      forall x ensures x in added <==> exists seed :: seed in seeds && x == CloneOf(seed, rounds) {
        if x in added {
          var i :| 0 <= i < |added| && added[i] == x;
          assert seeds[i] in seeds;
        }
        if seed :| seed in seeds && x == CloneOf(seed, rounds) {
          var i :| 0 <= i < |seeds| && seeds[i] == seed;
          assert added[i] == x;
        }
      }
    }
  }

  /** The map holds the seeds' entries as they were, and for every clone the entry of its seed, if that has one. */
  ghost predicate HoldsClones<V>(before: map<string, V>, after: map<string, V>, seeds: seq<Repository>, rounds: int) {
    && (forall seed, r :: seed in seeds && 1 <= r <= rounds ==>
         var k := CloneName(seed.name, r);
         (k in after <==> seed.name in before) && (seed.name in before ==> k in after && after[k] == before[seed.name]))
    && forall k :: !IsCloneName(k, seeds, rounds) ==> Same(after, before, k)
  }

  lemma {:induction false} RoundsHoldClones<V>(m: map<string, V>, seeds: seq<Repository>, rounds: nat)
    requires Apart(seeds, rounds) && forall k :: k in m ==> !IsCloneName(k, seeds, rounds)
    ensures HoldsClones(m, MapRounds(m, seeds, rounds), seeds, rounds)
  {
    hide CloneName, MapRounds;
    var after := MapRounds(m, seeds, rounds);
    forall seed, r | seed in seeds && 1 <= r <= rounds
      ensures var k := CloneName(seed.name, r);
              (k in after <==> seed.name in m) && (seed.name in m ==> k in after && after[k] == m[seed.name])
    {
      assert IsCloneName(CloneName(seed.name, r), seeds, rounds);
      RoundsWrite(m, seeds, rounds, rounds, seed, r);
      if seed.name in m {
        RoundsCopy(m, seeds, rounds, seed, r);
      }
    }
    forall k | !IsCloneName(k, seeds, rounds) ensures Same(after, m, k) {
      RoundsSkip(m, seeds, rounds, k);
    }
  }

  /** A volume without collisions: the seeds as they were, and for each of factor - 1 rounds a clone of each, with the
      assets, the access entries and the connection of its seed. */
  lemma {:induction false} VolumeHoldsClones(base: State, factor: int)
    requires SeedsOnly(base) && NoCollision(base, factor - 1)
    ensures var t, seeds := Reconcile(base, factor), base.repositories;
            && seeds <= t.repositories
            && (forall x :: x in t.repositories <==>
                 x in seeds || exists seed, r :: seed in seeds && 1 <= r < factor && x == CloneOf(seed, r))
            && HoldsClones(base.assets, t.assets, seeds, factor - 1)
            && HoldsClones(base.acls, t.acls, seeds, factor - 1)
            && HoldsClones(base.connStatus, t.connStatus, seeds, factor - 1)
  {
    hide AddRounds, MapRounds, HoldsClones, CloneOf, IsCloneName;
    var u, seeds, n := base.(volumeFactor := factor), base.repositories, Rounds(factor);
    FromSeeds(base, factor);
    RoundsRepositories(u, seeds, n);
    MapsOfRounds(u, u, seeds, n);
    assert WithMaps(u, u) == u;
    NoRounds(seeds, factor - 1);
    RoundsHoldClones(base.assets, seeds, n);
    RoundsHoldClones(base.acls, seeds, n);
    RoundsHoldClones(base.connStatus, seeds, n);
    HoldsOfNone(base.assets, Reconcile(base, factor).assets, seeds, factor - 1);
    HoldsOfNone(base.acls, Reconcile(base, factor).acls, seeds, factor - 1);
    HoldsOfNone(base.connStatus, Reconcile(base, factor).connStatus, seeds, factor - 1);
  }

  lemma {:induction false} NoRounds(seeds: seq<Repository>, rounds: int)
    ensures forall n :: IsCloneName(n, seeds, rounds) <==> IsCloneName(n, seeds, Rounds(rounds + 1))
  {
    hide CloneName;
  }

  lemma {:induction false} HoldsOfNone<V>(a: map<string, V>, b: map<string, V>, seeds: seq<Repository>, rounds: int)
    requires HoldsClones(a, b, seeds, Rounds(rounds + 1))
    ensures HoldsClones(a, b, seeds, rounds)
  {
    hide CloneName;
    NoRounds(seeds, rounds);
  }

  // ----- When taking names away leaves no trace -----

  /** Every entry under the name of a recalled clone is written again: its round comes back, and its seed has an
      entry. */
  ghost predicate Rewritten<V>(m: map<string, V>, seeds: seq<Repository>, recalled: int, rounds: int) {
    forall seed, r :: seed in seeds && 1 <= r <= recalled && CloneName(seed.name, r) in m ==>
      r <= rounds && seed.name in m
  }

  lemma {:induction false} EntryOfClone<V>(m: map<string, V>, names: set<string>, seeds: seq<Repository>, rounds: nat,
                                           recalled: int, seed: Repository, r: nat)
    requires Apart(seeds, recalled) && seed in seeds && 1 <= r <= recalled
    requires forall n :: n in names <==> IsCloneName(n, seeds, recalled)
    ensures var k := CloneName(seed.name, r);
            && (k in MapRounds(m, seeds, rounds) <==> k in m || (r <= rounds && seed.name in m))
            && (k in MapRounds(m - names, seeds, rounds) <==> r <= rounds && seed.name in m)
  {
    hide MapRounds, CloneName;
    assert IsCloneName(CloneName(seed.name, r), seeds, recalled);
    RoundsWrite(m, seeds, rounds, recalled, seed, r);
    RoundsWrite(m - names, seeds, rounds, recalled, seed, r);
  }

  lemma {:induction false} MapForgets<V>(m: map<string, V>, names: set<string>, seeds: seq<Repository>, rounds: nat,
                                         recalled: int)
    requires Apart(seeds, recalled) && forall n :: n in names <==> IsCloneName(n, seeds, recalled)
    ensures MapRounds(m - names, seeds, rounds) == MapRounds(m, seeds, rounds)
       <==> Rewritten(m, seeds, recalled, rounds)
  {
    var a, b := MapRounds(m, seeds, rounds), MapRounds(m - names, seeds, rounds);
    RoundsKeepLacking(m, m - names, names, seeds, rounds);
    hide MapRounds, CloneName, Apart;
    forall seed, r | seed in seeds && 1 <= r <= recalled
      ensures var k := CloneName(seed.name, r);
              && (k in a <==> k in m || (r <= rounds && seed.name in m))
              && (k in b <==> r <= rounds && seed.name in m)
    {
      EntryOfClone(m, names, seeds, rounds, recalled, seed, r);
    }
    if Rewritten(m, seeds, recalled, rounds) {
      forall k ensures Same(a, b, k) {
        if k in names && k in a {
          var seed, r :| seed in seeds && 1 <= r <= recalled && k == CloneName(seed.name, r);
          assert k in b;
        }
      }
      assert a == b;
    }
  }

  // ----- Going to one factor and then to another -----

  /** Materialising from another volume. */
  lemma {:induction false} FromVolume(base: State, f: int, g: int, names: set<string>)
    requires SeedsOnly(base) && f != g
    requires names == if f > 1 then Names(Reconcile(base, f).volumeClones) else {}
    ensures var t := Without(base, names).(volumeFactor := g);
            Reconcile(Reconcile(base, f), g) == AddRounds(t, t.repositories, Rounds(g))
  {
    hide AddRound, Without, Recalled;
    FactorOf(base, f);
    RecalledVolume(base, f, g);
  }

  lemma {:induction false} RoundsAddRepositories(s: State, seeds: seq<Repository>, rounds: nat)
    ensures |AddRounds(s, seeds, rounds).repositories| == |s.repositories| + rounds * |seeds|
  {
    if rounds > 0 {
      hide AddRound;
      RoundsAddRepositories(s, seeds, rounds - 1);
      RoundAddsRepositories(AddRounds(s, seeds, rounds - 1), seeds, rounds);
      assert rounds * |seeds| == (rounds - 1) * |seeds| + |seeds|;
    }
  }

  lemma {:induction false} RoundAddsRepositories(s: State, seeds: seq<Repository>, round: nat)
    ensures |AddRound(s, seeds, round).repositories| == |s.repositories| + |seeds|
  {
    hide CloneName;
    if seeds != [] {
      RoundAddsRepositories(s, seeds[..|seeds| - 1], round);
    }
  }

  lemma {:induction false} FilterDrops<T(!new)>(p: T -> bool, s: seq<T>, x: T)
    requires x in s && !p(x)
    ensures |Filter(p, s)| < |s|
  {
    assert s == s[..|s| - 1] + [s[|s| - 1]];
    if x in s[..|s| - 1] {
      FilterDrops(p, s[..|s| - 1], x);
    }
  }

  lemma {:induction false} MoreRepositories(small: nat, large: nat, rounds: nat)
    requires small < large
    ensures small + rounds * small < large + rounds * large
  {}

  /** A seed that is taken away is missing afterwards. */
  lemma {:induction false} SeedIsLost(base: State, names: set<string>, r: Repository, g: int)
    requires r in base.repositories && r.name in names
    ensures var t := Without(base, names).(volumeFactor := g);
            AddRounds(t, t.repositories, Rounds(g)) != AddRounds(base.(volumeFactor := g), base.repositories, Rounds(g))
  {
    var t := Without(base, names).(volumeFactor := g);
    FilterDrops(OutsideOf(names), base.repositories, r);
    RoundsAddRepositories(t, t.repositories, Rounds(g));
    RoundsAddRepositories(base.(volumeFactor := g), base.repositories, Rounds(g));
    MoreRepositories(|t.repositories|, |base.repositories|, Rounds(g));
  }

  /** While all seeds stay, the two ways agree exactly when they agree on each map. */
  lemma {:induction false} AgreeByMaps(base: State, names: set<string>, g: int)
    requires Without(base, names).repositories == base.repositories
    ensures var t, seeds, n := Without(base, names).(volumeFactor := g), base.repositories, Rounds(g);
            AddRounds(t, seeds, n) == AddRounds(base.(volumeFactor := g), seeds, n) <==>
              && MapRounds(base.assets - names, seeds, n) == MapRounds(base.assets, seeds, n)
              && MapRounds(base.acls - names, seeds, n) == MapRounds(base.acls, seeds, n)
              && MapRounds(base.connStatus - names, seeds, n) == MapRounds(base.connStatus, seeds, n)
  {
    var t, u := Without(base, names).(volumeFactor := g), base.(volumeFactor := g);
    hide AddRounds, MapRounds, Filter;
    MapsOfRounds(u, t, base.repositories, Rounds(g));
    MapsOfRounds(u, u, base.repositories, Rounds(g));
    assert WithMaps(u, t) == t && WithMaps(u, u) == u;
  }

  lemma {:induction false} SeedsStay(base: State, names: set<string>)
    requires forall r :: r in base.repositories ==> r.name !in names
    ensures Without(base, names).repositories == base.repositories
  {
    FilterAll(OutsideOf(names), base.repositories);
  }

  lemma {:induction false} CloneNames(base: State, f: int, names: set<string>)
    requires SeedsOnly(base)
    requires names == if f > 1 then Names(Reconcile(base, f).volumeClones) else {}
    ensures forall n :: n in names <==> IsCloneName(n, base.repositories, f - 1)
  {
    if f > 1 {
      ClonesAreNamed(base, f);
    }
  }

  /** Going to f and then to another factor g equals going to g straight away if and only if no repository has the
      name of a clone of f, and every entry under such a name is written again on the way to g. */
  lemma {:induction false} VolumeForgetsExactly(base: State, f: int, g: int)
    requires SeedsOnly(base) && f != g
    ensures Reconcile(Reconcile(base, f), g) == Reconcile(base, g)
       <==> && NoNameCollision(base, f - 1)
            && Rewritten(base.assets, base.repositories, f - 1, g - 1)
            && Rewritten(base.acls, base.repositories, f - 1, g - 1)
            && Rewritten(base.connStatus, base.repositories, f - 1, g - 1)
  {
    hide Reconcile, AddRounds, MapRounds, Without, IsCloneName, SeedsOnly, CloneName;
    var names := if f > 1 then Names(Reconcile(base, f).volumeClones) else {};
    var seeds := base.repositories;
    CloneNames(base, f, names);
    FromSeeds(base, g);
    FromVolume(base, f, g, names);
    if NoNameCollision(base, f - 1) {
      SeedsStay(base, names);
      AgreeByMaps(base, names, g);
      MapForgets(base.assets, names, seeds, Rounds(g), f - 1);
      MapForgets(base.acls, names, seeds, Rounds(g), f - 1);
      MapForgets(base.connStatus, names, seeds, Rounds(g), f - 1);
    } else {
      var r :| r in seeds && IsCloneName(r.name, seeds, f - 1);
      SeedIsLost(base, names, r, g);
    }
  }
}
