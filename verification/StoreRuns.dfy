/** Runs of the store: requests of every kind, one after another. */
module StoreRuns {
  import opened Wrappers
  import opened Seqs
  import opened Text
  import opened StorePaths
  import opened StoreState
  import opened StoreVolumes

  // ----- Deleting a repository -----

  /** The name itself, or the name with "-v" and digits behind it. */
  predicate Doomed(name: string, other: string) {
    other == name || (name + "-v" <= other && |other| > |name| + 2 && AllDigits(other[|name| + 2..]))
  }

  function DoomedNames(repositories: seq<Repository>, name: string): set<string> {
    set r | r in repositories && Doomed(name, r.name) :: r.name
  }

  function NotIn(names: set<string>): string -> bool { (n: string) => n !in names }

  function RemoveRepository(s: State, name: string): (State, Reply) {
    var doomed := DoomedNames(s.repositories, name);
    var t := Without(s, doomed).(volumeClones := Filter(NotIn(doomed), s.volumeClones));
    (t, if |t.repositories| < |s.repositories| then Deleted else Absent)
  }

  // ----- Requests and runs -----

  datatype Request =
    | PutRawAsset(name: string, path: string, size: int, contentType: string)
    | DeleteRawAsset(name: string, path: string)
    | ApplyAssetOperation(name: string, operation: Operation)
    | CleanupEmptyMavenArtifacts(name: string)
    | UploadMavenArtifact(name: string, groupId: string, artifactId: string, version: string, packaging: string,
                          size: int)
    | CreateRepository(name: string, format: string, kind: string, visibility: string)
    | DeleteRepository(name: string)
    | ReconcileVolume(factor: int)

  function Step(s: State, r: Request, now: string): (State, Reply) {
    match r
    case PutRawAsset(name, path, size, contentType) => PutRaw(s, name, path, size, contentType, now)
    case DeleteRawAsset(name, path) => DeleteRaw(s, name, path)
    case ApplyAssetOperation(name, operation) => Apply(s, name, operation, now)
    case CleanupEmptyMavenArtifacts(name) => Cleanup(s, name)
    case UploadMavenArtifact(name, groupId, artifactId, version, packaging, size) =>
      UploadMaven(s, name, MavenFiles(groupId, artifactId, version, packaging, size, now))
    case CreateRepository(name, format, kind, visibility) => Create(s, name, format, kind, visibility)
    case DeleteRepository(name) => RemoveRepository(s, name)
    case ReconcileVolume(factor) => (Reconcile(s, factor), Reconciled)
  }

  function Run(s: State, rs: seq<(Request, string)>): State {
    if rs == [] then s else Step(Run(s, rs[..|rs| - 1]), rs[|rs| - 1].0, rs[|rs| - 1].1).0
  }

  lemma {:induction false} RoundsKeepValid(s: State, seeds: seq<Repository>, rounds: nat)
    requires Valid(s)
    ensures Valid(AddRounds(s, seeds, rounds))
  {
    if rounds > 0 {
      RoundsKeepValid(s, seeds, rounds - 1);
      RoundKeepsValid(AddRounds(s, seeds, rounds - 1), seeds, rounds);
    }
  }

  lemma {:induction false} RoundKeepsValid(s: State, seeds: seq<Repository>, round: nat)
    requires Valid(s)
    ensures Valid(AddRound(s, seeds, round))
  {
    if seeds != [] {
      hide DistinctPaths, CloneName;
      RoundKeepsValid(s, seeds[..|seeds| - 1], round);
    }
  }

  /** A request keeps the asset paths of every repository distinct, and a refused one changes nothing. */
  lemma {:induction false} StepKeepsValid(s: State, r: Request, now: string)
    requires Valid(s)
    ensures Valid(Step(s, r, now).0)
    ensures Refused(Step(s, r, now).1) ==> Step(s, r, now).0 == s
  {
    hide PutRaw, DeleteRaw, Apply, Cleanup, UploadMaven, AddRounds, Find, DistinctPaths;
    match r
    case PutRawAsset(name, path, size, contentType) =>
      OperationsKeepPathsDistinct(s, name, path, size, contentType, Operation(Action.Delete, [], "", ""), [], now);
    case DeleteRawAsset(name, path) =>
      OperationsKeepPathsDistinct(s, name, path, 0, "", Operation(Action.Delete, [], "", ""), [], now);
    case ApplyAssetOperation(name, operation) => OperationsKeepPathsDistinct(s, name, "", 0, "", operation, [], now);
    case CleanupEmptyMavenArtifacts(name) =>
      OperationsKeepPathsDistinct(s, name, "", 0, "", Operation(Action.Delete, [], "", ""), [], now);
    case UploadMavenArtifact(name, groupId, artifactId, version, packaging, size) =>
      OperationsKeepPathsDistinct(s, name, "", 0, "", Operation(Action.Delete, [], "", ""),
                                  MavenFiles(groupId, artifactId, version, packaging, size, now), now);
    case CreateRepository(_, _, _, _) =>
    case DeleteRepository(name) => NothingDoomed(s, name);
    case ReconcileVolume(factor) =>
      if factor > 1 {
        RoundsKeepValid(Recalled(s, factor), Recalled(s, factor).repositories, factor - 1);
      }
  }

  lemma {:induction false} FewerRepositories(names: set<string>, repositories: seq<Repository>)
    ensures |Filter(OutsideOf(names), repositories)| <= |repositories|
    ensures |Filter(OutsideOf(names), repositories)| < |repositories|
       <==> exists r :: r in repositories && r.name in names
  {
    if repositories != [] {
      Unsnoc(repositories);
      FewerRepositories(names, repositories[..|repositories| - 1]);
    }
  }

  lemma {:induction false} NothingDoomed(s: State, name: string)
    ensures RemoveRepository(s, name).1.Absent? <==> DoomedNames(s.repositories, name) == {}
    ensures RemoveRepository(s, name).1.Absent? ==> RemoveRepository(s, name).0 == s
  {
    hide Doomed, Filter;
    var doomed := DoomedNames(s.repositories, name);
    FewerRepositories(doomed, s.repositories);
    if doomed != {} {
      var n :| n in doomed;
    } else {
      FilterAll(OutsideOf({}), s.repositories);
      FilterAll(NotIn({}), s.volumeClones);
    }
  }

  /** In every state a run reaches, each repository's asset paths are pairwise distinct. */
  lemma {:induction false} ReachableStatesAreValid(s: State, rs: seq<(Request, string)>)
    requires Valid(s)
    ensures Valid(Run(s, rs))
  {
    if rs != [] {
      ReachableStatesAreValid(s, rs[..|rs| - 1]);
      StepKeepsValid(Run(s, rs[..|rs| - 1]), rs[|rs| - 1].0, rs[|rs| - 1].1);
    }
  }

  // ----- Repository names -----

  /** Deleting a repository takes its own clones with it and nobody else's. */
  lemma {:induction false} DeletingTakesOnlyOwnClones(name: string, seed: string, round: nat)
    ensures Doomed(name, CloneName(seed, round)) <==> name == seed || name == CloneName(seed, round)
  {
    var clone, d := CloneName(seed, round), Decimal(round);
    assert clone[|seed| + 2..] == d && clone[|seed| + 1] == 'v' && clone[..|seed|] == seed;
    if name + "-v" <= clone && AllDigits(clone[|name| + 2..]) {
      assert clone[..|name|] == name && clone[|name| + 1] == 'v';
      var tail := clone[|name| + 2..];
      assert forall i :: |name| + 2 <= i < |clone| ==> clone[i] == tail[i - |name| - 2];
      assert forall i :: |seed| + 2 <= i < |clone| ==> clone[i] == d[i - |seed| - 2];
      assert |name| == |seed|;
    }
    if name == seed {
      assert seed + "-v" <= clone && AllDigits(d);
    }
  }

  lemma {:induction false} FindNone(repositories: seq<Repository>, name: string)
    ensures Find(repositories, name).None? <==> forall r :: r in repositories ==> r.name != name
  {
    if repositories != [] {
      FindNone(repositories[1..], name);
      assert forall r :: r in repositories <==> r == repositories[0] || r in repositories[1..];
    }
  }

  lemma {:induction false} NamesSnoc(repositories: seq<Repository>, r: Repository)
    ensures Distinct(Map(NameOf, repositories + [r]))
       <==> Distinct(Map(NameOf, repositories)) && forall x :: x in repositories ==> x.name != r.name
  {
    var all, some := Map(NameOf, repositories + [r]), Map(NameOf, repositories);
    assert all == some + [r.name];
    DistinctConcat(some, [r.name]);
    if forall x :: x in repositories ==> x.name != r.name {
      assert forall i :: 0 <= i < |some| ==> some[i] == repositories[i].name && repositories[i] in repositories;
    }
    if r.name !in some {
      forall x | x in repositories ensures x.name != r.name {
        var i :| 0 <= i < |repositories| && repositories[i] == x;
        assert some[i] == x.name;
      }
    }
  }

  lemma {:induction false} FilterNames(p: Repository -> bool, repositories: seq<Repository>)
    requires Distinct(Map(NameOf, repositories))
    ensures Distinct(Map(NameOf, Filter(p, repositories)))
  {
    if repositories != [] {
      hide Filter, Map, NameOf, Distinct;
      var init, last := repositories[..|repositories| - 1], repositories[|repositories| - 1];
      Unsnoc(repositories);
      NamesSnoc(init, last);
      FilterNames(p, init);
      FilterStep(p, init, last);
      NamesSnoc(Filter(p, init), last);
    }
  }

  /** A change of volume that gives a clone the name of a repository that stays. */
  ghost predicate Clashes(s: State, r: Request) {
    && r.ReconcileVolume? && r.factor != s.volumeFactor && r.factor > 1
    && !NoNameCollision(Recalled(s, r.factor), r.factor - 1)
  }

  /** Repository names stay unique through every request except a change of volume that clashes. */
  lemma {:induction false} NamesStayUnique(s: State, r: Request, now: string)
    requires UniqueNames(s)
    ensures UniqueNames(Step(s, r, now).0) <==> !Clashes(s, r)
  {
    hide AddRounds, Find, Filter, Map, NameOf, Distinct, Doomed, NoNameCollision;
    match r
    case CreateRepository(name, format, kind, visibility) =>
      FindNone(s.repositories, name);
      NamesSnoc(s.repositories, Repository(s.repositoryIds + 1, name, format, kind, visibility));
    case DeleteRepository(name) => FilterNames(OutsideOf(DoomedNames(s.repositories, name)), s.repositories);
    case ReconcileVolume(factor) =>
      FilterNames(OutsideOf(Names(s.volumeClones)), s.repositories);
      if factor > 1 {
        UniqueInRounds(Recalled(s, factor), Recalled(s, factor).repositories, factor - 1);
      }
    case _ =>
      SameRepositories(s, r, now);
  }

  lemma {:induction false} SameRepositories(s: State, r: Request, now: string)
    requires !r.CreateRepository? && !r.DeleteRepository? && !r.ReconcileVolume?
    ensures Step(s, r, now).0.repositories == s.repositories
  {
    hide Find, Normalized, Upsert, UpsertAll, Refusal, After, EmptyVersionPaths, IndexOf, MavenFiles, Filter, RawAsset;
  }

  // ----- Creating and deleting repositories, written out -----

  /** The name itself, or one that goes on with "-v" and one or more digits. */
  ghost predicate Goes(name: string, other: string) {
    other == name || exists digits :: digits != "" && AllDigits(digits) && other == name + "-v" + digits
  }

  lemma {:induction false} DoomedGoes(name: string, other: string)
    ensures Doomed(name, other) <==> Goes(name, other)
  {
    if Doomed(name, other) && other != name {
      assert other == name + "-v" + other[|name| + 2..];
    }
    if other != name && Goes(name, other) {
      var digits :| digits != "" && AllDigits(digits) && other == name + "-v" + digits;
      assert other[|name| + 2..] == digits && name + "-v" <= other;
    }
  }

  /** Deleting a repository takes it and the repositories that go with it, with all that is kept under their names, and
      nothing else; it is absent exactly when there is none of these. */
  lemma {:induction false} DeletingAnswers(s: State, name: string)
    ensures var (t, reply) := RemoveRepository(s, name);
            var gone := set r | r in s.repositories && Goes(name, r.name) :: r.name;
            && t.repositories == Filter((r: Repository) => r.name !in gone, s.repositories)
            && t.assets == s.assets - gone && t.acls == s.acls - gone && t.connStatus == s.connStatus - gone
            && t.volumeClones == Filter((n: string) => n !in gone, s.volumeClones)
            && reply == (if exists r :: r in s.repositories && Goes(name, r.name) then Deleted else Absent)
  {
    hide Doomed, Goes, Filter;
    var gone := set r | r in s.repositories && Goes(name, r.name) :: r.name;
    forall r ensures Doomed(name, r) <==> Goes(name, r) {
      DoomedGoes(name, r);
    }
    assert DoomedNames(s.repositories, name) == gone;
    FilterAgrees(OutsideOf(gone), (r: Repository) => r.name !in gone, s.repositories);
    FilterAgrees(NotIn(gone), (n: string) => n !in gone, s.volumeClones);
    FewerRepositories(gone, s.repositories);
  }

  /** Creating a repository is refused exactly when one has the name, and otherwise adds it under the next number. */
  lemma {:induction false} CreatingAnswers(s: State, name: string, format: string, kind: string, visibility: string)
    ensures var (t, reply) := Create(s, name, format, kind, visibility);
            if exists r :: r in s.repositories && r.name == name then reply == Missing && t == s
            else
              && reply == Created
              && t.repositories == s.repositories + [Repository(s.repositoryIds + 1, name, format, kind, visibility)]
              && t.repositoryIds == s.repositoryIds + 1
              && t == s.(repositories := t.repositories, repositoryIds := t.repositoryIds)
  {
    FoundByName(s.repositories, name);
  }

  lemma {:induction false} FoundByName(repositories: seq<Repository>, name: string)
    ensures Find(repositories, name).Some? <==> exists r :: r in repositories && r.name == name
    ensures Find(repositories, name).Some? ==>
      Find(repositories, name).value in repositories && Find(repositories, name).value.name == name
  {
    if repositories != [] {
      FoundByName(repositories[1..], name);
      assert repositories == [repositories[0]] + repositories[1..];
    }
  }
}
