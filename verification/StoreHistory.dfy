/** Volumes among other requests: what clones leave behind when they are recalled. */
module StoreHistory {
  import opened Wrappers
  import opened Seqs
  import opened StorePaths
  import opened StoreState
  import opened StoreVolumes
  import opened StoreRuns

  /** A request about the assets of one repository. */
  predicate OnAssets(r: Request) {
    || r.PutRawAsset? || r.DeleteRawAsset? || r.ApplyAssetOperation? || r.CleanupEmptyMavenArtifacts?
    || r.UploadMavenArtifact?
  }

  /** The state but for the number of bulk operations done so far. */
  function Uncounted(s: State): State { s.(operations := 0) }

  /** The state where the change of a request on assets has been made, if it makes one. */
  function Changed(s: State, name: string, change: Option<seq<Asset>>): State {
    match change case Some(a) => s.WithAssets(name, a) case None => s
  }

  /** The change a request makes in the state it finds. */
  ghost predicate IsChange(s: State, r: Request, now: string, change: Option<seq<Asset>>)
    requires OnAssets(r)
  {
    && Uncounted(Step(s, r, now).0) == Uncounted(Changed(s, r.name, change))
    && (Find(s.repositories, r.name).None? ==> change.None?)
  }

  lemma {:induction false} PutChange(s: State, t: State, r: Request, now: string) returns (change: Option<seq<Asset>>)
    requires r.PutRawAsset? && Find(s.repositories, r.name) == Find(t.repositories, r.name)
    requires s.AssetsOf(r.name) == t.AssetsOf(r.name)
    ensures IsChange(s, r, now, change) && IsChange(t, r, now, change)
  {
    hide Find, Normalized, Upsert, UpsertAll, Refusal, After, EmptyVersionPaths, IndexOf, MavenFiles, Filter, RawAsset,
         Selection;
    var p := Normalized(r.path);
    match Find(s.repositories, r.name)
    case None => change := None;
    case Some(repo) =>
      change := if p == "" || repo.format != "raw" || repo.kind != "hosted" then None
                else Some(Upsert(s.AssetsOf(r.name), RawAsset(p, r.size, r.contentType, now)));
  }

  lemma {:induction false} DeleteChange(
      s: State, t: State, r: Request, now: string) returns (change: Option<seq<Asset>>)
    requires r.DeleteRawAsset? && Find(s.repositories, r.name) == Find(t.repositories, r.name)
    requires s.AssetsOf(r.name) == t.AssetsOf(r.name)
    ensures IsChange(s, r, now, change) && IsChange(t, r, now, change)
  {
    hide Find, Normalized, Upsert, UpsertAll, Refusal, After, EmptyVersionPaths, IndexOf, MavenFiles, Filter, RawAsset,
         Selection;
    var p, a := Normalized(r.path), s.AssetsOf(r.name);
    var i := IndexOf(a, p);
    match Find(s.repositories, r.name)
    case None => change := None;
    case Some(repo) =>
      change := if p == "" || repo.format != "raw" || repo.kind != "hosted" || i == |a| then None
                else Some(a[..i] + a[i + 1..]);
  }

  lemma {:induction false} BulkChange(s: State, t: State, r: Request, now: string) returns (change: Option<seq<Asset>>)
    requires r.ApplyAssetOperation? && Find(s.repositories, r.name) == Find(t.repositories, r.name)
    requires s.AssetsOf(r.name) == t.AssetsOf(r.name)
    ensures IsChange(s, r, now, change) && IsChange(t, r, now, change)
  {
    hide Find, Normalized, Upsert, UpsertAll, Refusal, After, EmptyVersionPaths, IndexOf, MavenFiles, Filter, RawAsset,
         Selection;
    match Find(s.repositories, r.name)
    case None => change := None;
    case Some(repo) =>
      var a := s.AssetsOf(r.name);
      change := if Refusal(repo, a, r.operation).Some? then None else Some(After(a, r.operation, now));
  }

  lemma {:induction false} CleanupChange(
      s: State, t: State, r: Request, now: string) returns (change: Option<seq<Asset>>)
    requires r.CleanupEmptyMavenArtifacts? && Find(s.repositories, r.name) == Find(t.repositories, r.name)
    requires s.AssetsOf(r.name) == t.AssetsOf(r.name)
    ensures IsChange(s, r, now, change) && IsChange(t, r, now, change)
  {
    hide Find, Normalized, Upsert, UpsertAll, Refusal, After, EmptyVersionPaths, IndexOf, MavenFiles, Filter, RawAsset,
         Selection;
    var a := s.AssetsOf(r.name);
    match Find(s.repositories, r.name)
    case None => change := None;
    case Some(repo) =>
      change := if repo.format != "maven" || repo.kind != "hosted" || |EmptyVersionPaths(a)| == 0 then None
                else Some(Filter(Unselected(EmptyVersionPaths(a)), a));
  }

  lemma {:induction false} UploadChange(
      s: State, t: State, r: Request, now: string) returns (change: Option<seq<Asset>>)
    requires r.UploadMavenArtifact? && Find(s.repositories, r.name) == Find(t.repositories, r.name)
    requires s.AssetsOf(r.name) == t.AssetsOf(r.name)
    ensures IsChange(s, r, now, change) && IsChange(t, r, now, change)
  {
    hide Find, Normalized, Upsert, UpsertAll, Refusal, After, EmptyVersionPaths, IndexOf, MavenFiles, Filter, RawAsset,
         Selection;
    match Find(s.repositories, r.name)
    case None => change := None;
    case Some(repo) =>
      change := if repo.format != "maven" || repo.kind != "hosted" then None
                else Some(UpsertAll(s.AssetsOf(r.name),
                                    MavenFiles(r.groupId, r.artifactId, r.version, r.packaging, r.size, now)));
  }

  /** A request makes the same change in states that agree on its repository and the repository's assets. */
  lemma {:induction false} SameChange(s: State, t: State, r: Request, now: string) returns (change: Option<seq<Asset>>)
    requires OnAssets(r) && Find(s.repositories, r.name) == Find(t.repositories, r.name)
    requires s.AssetsOf(r.name) == t.AssetsOf(r.name)
    ensures Uncounted(Step(s, r, now).0) == Uncounted(Changed(s, r.name, change))
    ensures Uncounted(Step(t, r, now).0) == Uncounted(Changed(t, r.name, change))
    ensures Find(s.repositories, r.name).None? ==> change.None?
  {
    hide Find, Step, Changed;
    match r
    case PutRawAsset(_, _, _, _) => change := PutChange(s, t, r, now);
    case DeleteRawAsset(_, _) => change := DeleteChange(s, t, r, now);
    case ApplyAssetOperation(_, _) => change := BulkChange(s, t, r, now);
    case CleanupEmptyMavenArtifacts(_) => change := CleanupChange(s, t, r, now);
    case UploadMavenArtifact(_, _, _, _, _, _) => change := UploadChange(s, t, r, now);
  }

  // ----- Recalling commutes with changes of assets -----

  lemma {:induction false} FindOutside(repositories: seq<Repository>, names: set<string>, name: string)
    requires name !in names
    ensures Find(Filter(OutsideOf(names), repositories), name) == Find(repositories, name)
  {
    hide Filter;
    if repositories != [] {
      var rest := repositories[1..];
      FindOutside(rest, names, name);
      assert repositories == [repositories[0]] + rest;
      FilterConcat(OutsideOf(names), [repositories[0]], rest);
      OnlyOne(OutsideOf(names), repositories[0]);
      assert ([repositories[0]] + Filter(OutsideOf(names), rest))[1..] == Filter(OutsideOf(names), rest);
      assert [] + Filter(OutsideOf(names), rest) == Filter(OutsideOf(names), rest);
    } else {
      FilterAll(OutsideOf(names), repositories);
    }
  }

  lemma {:induction false} OnlyOne<T(!new)>(p: T -> bool, x: T)
    ensures Filter(p, [x]) == if p(x) then [x] else []
  {
    assert [] + [x] == [x];
    FilterStep(p, [], x);
  }

  /** Recalling keeps a change to a seed and drops a change to a clone. */
  lemma {:induction false} RecallChanged(s: State, name: string, change: Option<seq<Asset>>)
    ensures Recalled(Changed(s, name, change), 1)
         == if name in s.volumeClones then Recalled(s, 1) else Changed(Recalled(s, 1), name, change)
  {
    hide Filter;
    if change.Some? {
      var names := Names(s.volumeClones);
      if name in names {
        assert s.assets[name := change.value] - names == s.assets - names;
      } else {
        assert s.assets[name := change.value] - names == (s.assets - names)[name := change.value];
      }
    }
  }

  lemma {:induction false} RecallUncounted(s: State)
    ensures Uncounted(Recalled(s, 1)) == Recalled(Uncounted(s), 1)
  {}

  // ----- What stands between the volume and its seeds -----

  /** The volume is the seeds with clones of its factor, some perhaps changed since: recalling them leaves the seeds. */
  ghost predicate IsVolumeOf(t: State, b: State, rounds: int) {
    && SeedsOnly(b) && NoCollision(b, rounds)
    && Uncounted(Recalled(t, 1)) == Uncounted(b)
    && (forall n :: n in t.volumeClones ==> IsCloneName(n, b.repositories, rounds))
    && (t.volumeFactor == 1 ==> t.volumeClones == [])
  }

  lemma {:induction false} SeedsAreTheirVolume(b: State, rounds: int)
    requires SeedsOnly(b) && NoCollision(b, rounds)
    ensures IsVolumeOf(b, b, rounds)
  {
    hide IsCloneName, Filter;
    assert Names([]) == {};
    WithoutNothing(b, {});
  }

  lemma {:induction false} FewerRoundsFewerCollisions(b: State, few: int, rounds: int)
    requires NoCollision(b, rounds) && few <= rounds
    ensures NoCollision(b, few)
    ensures forall n :: IsCloneName(n, b.repositories, few) ==> IsCloneName(n, b.repositories, rounds)
  {
    hide CloneName;
  }

  lemma {:induction false} OutsideOfNone(repositories: seq<Repository>)
    ensures Filter(OutsideOf({}), repositories) == repositories
  {
    FilterAll(OutsideOf({}), repositories);
  }

  lemma {:induction false} RecalledSeeds(b: State, f: int)
    requires SeedsOnly(b)
    ensures Recalled(b, f) == b.(volumeFactor := f)
  {
    hide Filter;
    assert Names([]) == {};
    OutsideOfNone(b.repositories);
    assert b.assets - {} == b.assets && b.acls - {} == b.acls && b.connStatus - {} == b.connStatus;
  }

  /** Changing the factor forgets what was done to the clones: the volume becomes the one of its seeds. */
  lemma {:induction false} ReconcileFromSeeds(t: State, b: State, f: int, rounds: int)
    requires IsVolumeOf(t, b, rounds) && t.volumeFactor != f
    ensures Reconcile(t, f) == Reconcile(b.(operations := t.operations), f)
  {
    hide Filter, IsCloneName, AddRounds, NoCollision, Without;
    var c := b.(operations := t.operations);
    RecalledSeeds(c, f);
    RecalledSeeds(c, 1);
    assert Recalled(t, 1).operations == t.operations by { WithoutKeepsCounts(t, Names(t.volumeClones)); }
    assert Recalled(t, f) == Recalled(t, 1).(volumeFactor := f);
    assert Recalled(t, 1) == c by { CountedAgain(Recalled(t, 1), b); }
  }

  lemma {:induction false} WithoutKeepsCounts(s: State, names: set<string>)
    ensures Without(s, names).operations == s.operations
  {}

  lemma {:induction false} CountedAgain(s: State, t: State)
    requires Uncounted(s) == Uncounted(t)
    ensures s == t.(operations := s.operations)
  {}

  lemma {:induction false} ReconcileKeepsVolume(t: State, b: State, f: int, rounds: int)
    requires IsVolumeOf(t, b, rounds) && f - 1 <= rounds
    ensures IsVolumeOf(Reconcile(t, f), b, rounds)
  {
    if t.volumeFactor != f {
      hide Filter, AddRounds, Without;
      var c := b.(operations := t.operations);
      ReconcileFromSeeds(t, b, f, rounds);
      FewerRoundsFewerCollisions(b, f - 1, rounds);
      var names := if f > 1 then Names(Reconcile(c, f).volumeClones) else {};
      RecalledVolume(c, f, 1);
      RecallNames(c, f, names);
      FactorOf(c, f);
      NamesOfVolume(c, f);
      hide NoCollision, IsCloneName, Recalled, Reconcile;
    }
  }

  lemma {:induction false} NamesOfVolume(b: State, f: int)
    requires SeedsOnly(b)
    ensures forall n :: n in Reconcile(b, f).volumeClones ==> IsCloneName(n, b.repositories, f - 1)
    ensures f <= 1 ==> Reconcile(b, f).volumeClones == []
  {
    hide AddRounds, IsCloneName, Without;
    if f > 1 {
      ClonesAreNamed(b, f);
      assert forall n :: n in Reconcile(b, f).volumeClones ==> n in Names(Reconcile(b, f).volumeClones);
    }
  }

  lemma {:induction false} SameRepository(t: State, b: State, name: string, rounds: int)
    requires IsVolumeOf(t, b, rounds) && name !in t.volumeClones
    ensures Find(t.repositories, name) == Find(b.repositories, name) && t.AssetsOf(name) == b.AssetsOf(name)
  {
    hide Filter, IsCloneName, Find, NoCollision;
    var names := Names(t.volumeClones);
    FindOutside(t.repositories, names, name);
    assert Uncounted(Recalled(t, 1)).assets == t.assets - names;
    assert name in t.assets - names <==> name in b.assets;
  }

  lemma {:induction false} ChangeKeepsNoCollision(b: State, name: string, change: Option<seq<Asset>>, rounds: int)
    requires NoCollision(b, rounds) && !IsCloneName(name, b.repositories, rounds)
    ensures NoCollision(Changed(b, name, change), rounds)
  {
    hide IsCloneName;
  }

  lemma {:induction false} NoCollisionUncounted(s: State, t: State, rounds: int)
    requires Uncounted(s) == Uncounted(t) && NoCollision(s, rounds)
    ensures NoCollision(t, rounds)
  {
    hide IsCloneName;
    assert s.repositories == t.repositories && s.assets == t.assets && s.acls == t.acls && s.connStatus == t.connStatus;
  }

  /** A request on a seed changes the volume as it changes the seeds. */
  lemma {:induction false} SeedRequestKeepsVolume(t: State, b: State, r: Request, now: string, rounds: int)
    requires IsVolumeOf(t, b, rounds) && OnAssets(r) && !IsCloneName(r.name, b.repositories, rounds)
    ensures IsVolumeOf(Step(t, r, now).0, Step(b, r, now).0, rounds)
  {
    SameRepository(t, b, r.name, rounds);
    var change := SameChange(t, b, r, now);
    RecallChanged(t, r.name, change);
    ChangeKeepsNoCollision(b, r.name, change, rounds);
    NoCollisionUncounted(Changed(b, r.name, change), Step(b, r, now).0, rounds);
    hide Step, IsCloneName, NoCollision, Without;
    VolumeUncounted(Changed(t, r.name, change), Changed(b, r.name, change), Step(t, r, now).0, Step(b, r, now).0,
                    rounds);
  }

  lemma {:induction false} VolumeUncounted(t: State, b: State, t': State, b': State, rounds: int)
    requires Uncounted(t) == Uncounted(t') && Uncounted(b) == Uncounted(b') && NoCollision(b', rounds)
    requires SeedsOnly(b) && Uncounted(Recalled(t, 1)) == Uncounted(b)
    requires forall n :: n in t.volumeClones ==> IsCloneName(n, b.repositories, rounds)
    requires t.volumeFactor == 1 ==> t.volumeClones == []
    ensures IsVolumeOf(t', b', rounds)
  {
    hide Without, IsCloneName, NoCollision;
    RecallUncounted(t);
    RecallUncounted(t');
    assert t'.volumeClones == t.volumeClones && t'.volumeFactor == t.volumeFactor;
    assert b'.repositories == b.repositories && b'.volumeFactor == b.volumeFactor && b'.volumeClones == b.volumeClones;
  }

  /** A request on a clone, or on one that is not there, changes nothing the seeds will show. */
  lemma {:induction false} CloneRequestKeepsVolume(t: State, b: State, r: Request, now: string, rounds: int)
    requires IsVolumeOf(t, b, rounds) && OnAssets(r) && IsCloneName(r.name, b.repositories, rounds)
    ensures IsVolumeOf(Step(t, r, now).0, b, rounds)
  {
    var change := SameChange(t, t, r, now);
    RecallChanged(t, r.name, change);
    if r.name !in t.volumeClones {
      SameRepository(t, b, r.name, rounds);
      FindNone(b.repositories, r.name);
    }
    hide Step, IsCloneName, NoCollision, Without, Find;
    VolumeUncounted(Changed(t, r.name, change), b, Step(t, r, now).0, b, rounds);
  }

  // ----- Runs -----

  /** Requests on assets and changes of volume, up to some number of rounds. */
  ghost predicate AssetsAndVolumes(rs: seq<(Request, string)>, rounds: int) {
    forall i :: 0 <= i < |rs| ==> OnAssets(rs[i].0) || (rs[i].0.ReconcileVolume? && rs[i].0.factor - 1 <= rounds)
  }

  /** The requests of a run that are about seeds. */
  ghost function OnSeeds(seeds: seq<Repository>, rounds: int): ((Request, string)) -> bool {
    (x: (Request, string)) => OnAssets(x.0) && !IsCloneName(x.0.name, seeds, rounds)
  }

  lemma {:induction false} RunIsVolumeOfSeeds(base: State, rs: seq<(Request, string)>, rounds: int)
    requires SeedsOnly(base) && NoCollision(base, rounds) && AssetsAndVolumes(rs, rounds)
    ensures var b := Run(base, Filter(OnSeeds(base.repositories, rounds), rs));
            b.repositories == base.repositories && IsVolumeOf(Run(base, rs), b, rounds)
  {
    var p := OnSeeds(base.repositories, rounds);
    if rs == [] {
      SeedsAreTheirVolume(base, rounds);
    } else {
      var init, last := rs[..|rs| - 1], rs[|rs| - 1];
      assert rs == init + [last];
      KindsOfRequest(rs, rounds, base.repositories);
      RunIsVolumeOfSeeds(base, init, rounds);
      FilterStep(p, init, last);
      RunStep(base, init, last);
      RunStep(base, Filter(p, init), last);
      var t, b := Run(base, init), Run(base, Filter(p, init));
      hide *;
      if last.0.ReconcileVolume? {
        ReconcileKeepsVolume(t, b, last.0.factor, rounds);
        ReconcileStep(t, last.0, last.1);
      } else if p(last) {
        SeedRequestKeepsVolume(t, b, last.0, last.1, rounds);
        SameRepositories(b, last.0, last.1);
      } else {
        CloneRequestKeepsVolume(t, b, last.0, last.1, rounds);
      }
    }
  }

  lemma {:induction false} KindsOfRequest(rs: seq<(Request, string)>, rounds: int, seeds: seq<Repository>)
    requires rs != [] && AssetsAndVolumes(rs, rounds)
    ensures AssetsAndVolumes(rs[..|rs| - 1], rounds)
    ensures var x := rs[|rs| - 1];
            && (x.0.ReconcileVolume? ==> x.0.factor - 1 <= rounds && !OnSeeds(seeds, rounds)(x) && !OnAssets(x.0))
            && (!x.0.ReconcileVolume? ==> OnAssets(x.0) && !x.0.CreateRepository? && !x.0.DeleteRepository?)
            && (!x.0.ReconcileVolume? ==> (OnSeeds(seeds, rounds)(x) <==> !IsCloneName(x.0.name, seeds, rounds)))
  {
    hide IsCloneName;
    assert rs[|rs| - 1] in rs;
  }

  lemma {:induction false} RunStep(s: State, rs: seq<(Request, string)>, x: (Request, string))
    ensures Run(s, rs + [x]) == Step(Run(s, rs), x.0, x.1).0
  {
    hide Step;
    assert (rs + [x])[..|rs|] == rs;
  }

  lemma {:induction false} ReconcileStep(s: State, r: Request, now: string)
    requires r.ReconcileVolume?
    ensures Step(s, r, now).0 == Reconcile(s, r.factor)
  {}

  /** Volumes among requests: whatever is uploaded, deleted, moved or cleaned up in seeds and clones between changes of
      volume, a change to another factor gives the state that the requests on seeds alone and that change
      would have given, and so does going back to 1; only the number of operations may differ. */
  lemma {:induction false} VolumesForgetClones(base: State, rs: seq<(Request, string)>, factor: int, rounds: int)
    requires SeedsOnly(base) && NoCollision(base, rounds) && AssetsAndVolumes(rs, rounds) && factor - 1 <= rounds
    requires Run(base, rs).volumeFactor != factor || factor == 1
    ensures var b := Run(base, Filter(OnSeeds(base.repositories, rounds), rs));
            Uncounted(Reconcile(Run(base, rs), factor)) == Uncounted(Reconcile(b, factor))
  {
    var b, t := Run(base, Filter(OnSeeds(base.repositories, rounds), rs)), Run(base, rs);
    RunIsVolumeOfSeeds(base, rs, rounds);
    hide Run, Filter, IsCloneName, NoCollision, AddRounds, Without;
    if t.volumeFactor != factor {
      ReconcileFromSeeds(t, b, factor, rounds);
      ReconcileUncounted(b, factor, t.operations);
    } else {
      RecalledSeeds(t, 1);
      RecalledSeeds(b, 1);
    }
  }

  lemma {:induction false} RoundUncounted(s: State, seeds: seq<Repository>, round: nat, n: nat)
    ensures AddRound(s.(operations := n), seeds, round) == AddRound(s, seeds, round).(operations := n)
  {
    if seeds != [] {
      hide CloneName;
      RoundUncounted(s, seeds[..|seeds| - 1], round, n);
    }
  }

  lemma {:induction false} RoundsUncounted(s: State, seeds: seq<Repository>, rounds: nat, n: nat)
    ensures AddRounds(s.(operations := n), seeds, rounds) == AddRounds(s, seeds, rounds).(operations := n)
  {
    if rounds > 0 {
      hide AddRound;
      RoundsUncounted(s, seeds, rounds - 1, n);
      RoundUncounted(AddRounds(s, seeds, rounds - 1), seeds, rounds, n);
    }
  }

  lemma {:induction false} ReconcileUncounted(s: State, factor: int, n: nat)
    ensures Reconcile(s.(operations := n), factor) == Reconcile(s, factor).(operations := n)
  {
    if s.volumeFactor != factor && factor > 1 {
      hide AddRounds, Filter;
      RoundsUncounted(Recalled(s, factor), Recalled(s, factor).repositories, factor - 1, n);
    }
  }
}
