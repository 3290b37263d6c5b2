/** The in-memory store itself: an object whose fields every request changes in place. */
module Store {
  import opened Wrappers
  import opened Text
  import opened Seqs
  import opened StorePaths
  import opened StoreState
  import opened StoreVolumes
  import opened StoreRuns
  import StoreDirectory

  // ----- Loops over assets and targets -----

  method AddAll(selected: set<string>, paths: seq<string>) returns (r: set<string>)
    ensures r == selected + set p | p in paths
  {
    r := selected;
    for i := 0 to |paths|
      invariant r == selected + set p | p in paths[..i]
    {
      r := r + {paths[i]};
    }
    assert paths[..|paths|] == paths;
  }

  /** The paths all targets select; conflict when some target selects none. */
  method Select(assets: seq<Asset>, targets: seq<Target>) returns (conflict: bool, selected: set<string>)
    ensures conflict <==> exists i :: 0 <= i < |targets| && TargetPaths(assets, targets[i]) == []
    ensures !conflict ==> selected == Selection(assets, targets)
  {
    hide TargetPaths, Selects;
    selected := {};
    for i := 0 to |targets|
      invariant forall j :: 0 <= j < i ==> TargetPaths(assets, targets[j]) != []
      invariant selected == Selection(assets, targets[..i])
    {
      var paths := TargetPaths(assets, targets[i]);
      if |paths| == 0 {
        return true, {};
      }
      SelectionStep(assets, targets, i);
      selected := AddAll(selected, paths);
    }
    assert targets[..|targets|] == targets;
    conflict := false;
  }

  lemma {:induction false} SelectionStep(assets: seq<Asset>, targets: seq<Target>, i: nat)
    requires i < |targets|
    ensures Selection(assets, targets[..i + 1])
         == Selection(assets, targets[..i]) + set p | p in TargetPaths(assets, targets[i])
  {
    hide Selects;
    assert forall p :: SelectedByAny(targets[..i + 1], p) <==> SelectedByAny(targets[..i], p) || Selects(targets[i], p);
  }

  function Part(
      paths: seq<string>, action: Action, source: string, directory: bool, destination: string): map<string, string>
  {
    map p | p in paths :: NextPath(action, source, directory, destination, p)
  }

  lemma {:induction false} PartStep(
      before: map<string, string>, paths: seq<string>, path: string, action: Action, source: string, directory: bool,
      destination: string)
    ensures before + Part(paths + [path], action, source, directory, destination)
         == (before + Part(paths, action, source, directory, destination))
              [path := NextPath(action, source, directory, destination, path)]
  {
    hide NextPath;
  }

  lemma {:induction false} WholePart(
      before: map<string, string>, assets: seq<Asset>, action: Action, target: Target, destination: string)
    ensures TargetPlan(assets, action, target, destination)
         == Part(TargetPaths(assets, target), action, Normalized(target.path), IsDirectory(assets, target), destination)
    ensures before + Part([], action, Normalized(target.path), IsDirectory(assets, target), destination) == before
  {
    hide NextPath, Normalized, TargetPaths, IsDirectory;
  }

  method PlanTarget(
      assets: seq<Asset>, action: Action, target: Target, destination: string, before: map<string, string>)
    returns (replacements: map<string, string>)
    ensures replacements == before + TargetPlan(assets, action, target, destination)
  {
    hide Normalized, NextPath, TargetPaths, TargetPlan, Part;
    var source, paths := Normalized(target.path), TargetPaths(assets, target);
    var directory := exists p :: p in paths && Under(p, source);
    replacements := before;
    WholePart(before, assets, action, target, destination);
    for i := 0 to |paths|
      invariant replacements == before + Part(paths[..i], action, source, directory, destination)
    {
      assert paths[..i + 1] == paths[..i] + [paths[i]];
      PartStep(before, paths[..i], paths[i], action, source, directory, destination);
      replacements := replacements[paths[i] := NextPath(action, source, directory, destination, paths[i])];
    }
    assert paths[..|paths|] == paths;
  }

  method PlanAll(assets: seq<Asset>, action: Action, targets: seq<Target>, destination: string)
    returns (replacements: map<string, string>)
    ensures replacements == Plan(assets, action, targets, destination)
  {
    hide TargetPlan;
    replacements := map[];
    for i := 0 to |targets|
      invariant replacements == Plan(assets, action, targets[..i], destination)
    {
      assert targets[..i + 1][..i] == targets[..i];
      replacements := PlanTarget(assets, action, targets[i], destination, replacements);
    }
    assert targets[..|targets|] == targets;
  }

  method GroupVersions(assets: seq<Asset>) returns (versions: map<string, seq<Asset>>)
    ensures Grouped(versions, VersionOf, Filter(InVersion, assets))
  {
    hide Filter, Grouped, Contains, Folder;
    versions := map[];
    assert Grouped(versions, VersionOf, Filter(InVersion, assets[..0])) by { NothingGrouped(assets); }
    for i := 0 to |assets|
      invariant Grouped(versions, VersionOf, Filter(InVersion, assets[..i]))
    {
      var asset := assets[i];
      assert assets[..i + 1] == assets[..i] + [asset];
      FilterStep(InVersion, assets[..i], asset);
      if Contains(asset.path, "maven-metadata.xml") || Folder(asset.path).None? {
        continue;
      }
      var version := Folder(asset.path).value;
      GroupedSnoc(versions, VersionOf, Filter(InVersion, assets[..i]), asset);
      versions := versions[version := (if version in versions then versions[version] else []) + [asset]];
    }
    assert assets[..|assets|] == assets;
  }

  lemma {:induction false} NothingGrouped(assets: seq<Asset>)
    ensures Grouped(map[], VersionOf, Filter(InVersion, assets[..0]))
  {}

  /** The paths of the assets in versions outside a set of versions. */
  ghost function EmptyPathsBut(assets: seq<Asset>, rest: set<string>): set<string> {
    set a | a in assets && InEmptyVersion(assets, a) && VersionOf(a) !in rest :: a.path
  }

  method EmptyPaths(assets: seq<Asset>) returns (empty: set<string>)
    ensures empty == EmptyVersionPaths(assets)
  {
    hide Grouped, InEmptyVersion;
    var versions := GroupVersions(assets);
    empty := {};
    var rest := versions.Keys;
    NoVersionYet(assets, versions);
    while rest != {}
      invariant rest <= versions.Keys && empty == EmptyPathsBut(assets, rest)
      decreases rest
    {
      var version :| version in rest;
      OneVersion(assets, versions, rest, version);
      if forall a :: a in versions[version] ==> !IsJar(a) {
        empty := empty + set a | a in versions[version] :: a.path;
      }
      rest := rest - {version};
    }
  }

  lemma {:induction false} NoVersionYet(assets: seq<Asset>, versions: map<string, seq<Asset>>)
    requires Grouped(versions, VersionOf, Filter(InVersion, assets))
    ensures EmptyPathsBut(assets, versions.Keys) == {}
    ensures EmptyPathsBut(assets, {}) == EmptyVersionPaths(assets)
  {
    hide Contains, Folder;
  }

  lemma {:induction false} EmptyOrNot(assets: seq<Asset>, versions: map<string, seq<Asset>>, version: string, a: Asset)
    requires Grouped(versions, VersionOf, Filter(InVersion, assets)) && version in versions
    ensures a in assets && InEmptyVersion(assets, a) && VersionOf(a) == version
       <==> a in versions[version] && forall b :: b in versions[version] ==> !IsJar(b)
  {
    hide InVersion, VersionOf, IsJar;
    var members := versions[version];
    assert forall b :: b in members <==> b in assets && InVersion(b) && VersionOf(b) == version;
  }

  lemma {:induction false} OneVersion(
      assets: seq<Asset>, versions: map<string, seq<Asset>>, rest: set<string>, version: string)
    requires Grouped(versions, VersionOf, Filter(InVersion, assets)) && version in rest && version in versions
    ensures EmptyPathsBut(assets, rest - {version}) == EmptyPathsBut(assets, rest)
         + if forall a :: a in versions[version] ==> !IsJar(a) then set a | a in versions[version] :: a.path else {}
  {
    hide InEmptyVersion, Grouped, Filter, VersionOf, IsJar;
    forall a {
      EmptyOrNot(assets, versions, version, a);
    }
  }

  /** The planning half of a bulk operation: a reason to refuse, or what to change. */
  method PlanOperation(repo: Repository, list: seq<Asset>, operation: Operation)
    returns (refusal: Option<Reply>, selected: set<string>, replacements: map<string, string>)
    ensures refusal == Refusal(repo, list, operation)
    ensures refusal.None? ==> selected == Selection(list, operation.targets)
    ensures refusal.None? && !operation.action.Delete? ==>
      replacements == Plan(list, operation.action, operation.targets, operation.Destination())
  {
    hide Operation.Destination, TargetPaths, Selection, Plan, PlanIsFree;
    selected, replacements := {}, map[];
    if repo.kind != "hosted" || |operation.targets| == 0 || |operation.targets| > MAX_TARGETS {
      return Some(Invalid), selected, replacements;
    }
    var conflict;
    conflict, selected := Select(list, operation.targets);
    if conflict {
      return Some(Conflict), selected, replacements;
    }
    if |selected| > MAX_TARGETS {
      return Some(Invalid), selected, replacements;
    }
    if operation.action.Delete? {
      return None, selected, replacements;
    }
    if repo.format != "raw" || exists i :: 0 <= i < |operation.targets| && !operation.targets[i].kind.RawPath? {
      return Some(Invalid), selected, replacements;
    }
    if operation.action.Rename? && |operation.targets| != 1 {
      return Some(Invalid), selected, replacements;
    }
    var destination := operation.Destination();
    if destination == "" {
      return Some(Invalid), selected, replacements;
    }
    replacements := PlanAll(list, operation.action, operation.targets, destination);
    var clash := Clash(list, operation.action, operation.targets, destination, selected, replacements);
    refusal := if clash then Some(Conflict) else None;
  }

  /** Whether a path would be given twice or is held by an asset that stays. */
  method Clash(list: seq<Asset>, ghost action: Action, ghost targets: seq<Target>, ghost destination: string,
               selected: set<string>, replacements: map<string, string>) returns (clash: bool)
    requires selected == Selection(list, targets) && replacements == Plan(list, action, targets, destination)
    ensures clash <==> !PlanIsFree(list, replacements)
  {
    hide Plan, Selection;
    var occupied := set p | p in Paths(list) && p !in selected;
    OccupiedPaths(list, action, targets, destination, selected, occupied);
    clash := || |replacements.Values| != |replacements.Keys|
             || exists p :: p in replacements && replacements[p] in occupied;
  }

  // ----- The store -----

  class ArtifactStore {
    var repositories: seq<Repository>
    var assets: map<string, seq<Asset>>
    var acls: map<string, seq<AclEntry>>
    var connStatus: map<string, Connection>
    var volumeClones: seq<string>
    var volumeFactor: int
    var repositoryIds: nat
    var operations: nat

    ghost function View(): State
      reads this
    {
      State(repositories, assets, acls, connStatus, volumeClones, volumeFactor, repositoryIds, operations)
    }

    /** A store of seeds. */
    constructor (repositories: seq<Repository>, assets: map<string, seq<Asset>>, acls: map<string, seq<AclEntry>>,
                 connStatus: map<string, Connection>, repositoryIds: nat)
      ensures View() == State(repositories, assets, acls, connStatus, [], 1, repositoryIds, 0) && SeedsOnly(View())
    {
      this.repositories, this.assets, this.acls, this.connStatus := repositories, assets, acls, connStatus;
      volumeClones, volumeFactor, this.repositoryIds, operations := [], 1, repositoryIds, 0;
    }

    method PutRawAsset(name: string, path: string, size: int, contentType: string, now: string) returns (reply: Reply)
      modifies `assets
      ensures (View(), reply) == PutRaw(old(View()), name, path, size, contentType, now)
    {
      var repo, normalized := Find(repositories, name), Normalized(path);
      if repo.None? || normalized == "" {
        return Missing;
      }
      if repo.value.format != "raw" || repo.value.kind != "hosted" {
        return Conflict;
      }
      var asset := RawAsset(normalized, size, contentType, now);
      var list := if name in assets then assets[name] else [];
      var existing := IndexOf(list, normalized);
      if existing < |list| {
        assets := assets[name := list[existing := asset]];
      } else {
        assets := assets[name := list + [asset]];
      }
      reply := Stored(asset);
    }

    method DeleteRawAsset(name: string, path: string) returns (reply: Reply)
      modifies `assets
      ensures (View(), reply) == DeleteRaw(old(View()), name, path)
    {
      var repo, normalized := Find(repositories, name), Normalized(path);
      if repo.None? || normalized == "" {
        return Missing;
      }
      if repo.value.format != "raw" || repo.value.kind != "hosted" {
        return Conflict;
      }
      var list := if name in assets then assets[name] else [];
      var index := IndexOf(list, normalized);
      if index == |list| {
        return Absent;
      }
      assets := assets[name := list[..index] + list[index + 1..]];
      reply := Removed;
    }

    /** Plans on a copy first and commits in one assignment. */
    method ApplyAssetOperation(name: string, operation: Operation, now: string) returns (reply: Reply)
      modifies `assets, `operations
      ensures (View(), reply) == Apply(old(View()), name, operation, now)
    {
      hide Find, Normalized, Refusal, Selection, Plan, Replaced, Filter;
      var repo := Find(repositories, name);
      if repo.None? {
        return Missing;
      }
      var list := if name in assets then assets[name] else [];
      var refusal, selected, replacements := PlanOperation(repo.value, list, operation);
      if refusal.Some? {
        return refusal.value;
      }
      if operation.action.Delete? {
        assets := assets[name := Filter(Unselected(selected), list)];
      } else {
        assets := assets[name := Replaced(list, replacements, now)];
      }
      operations := operations + 1;
      reply := Done(operations, |selected|);
    }

    method CleanupEmptyMavenArtifacts(name: string) returns (reply: Reply)
      modifies `assets
      ensures (View(), reply) == Cleanup(old(View()), name)
    {
      hide EmptyVersionPaths, Filter;
      var repo := Find(repositories, name);
      if repo.None? {
        return Missing;
      }
      if repo.value.format != "maven" || repo.value.kind != "hosted" {
        return Conflict;
      }
      var list := if name in assets then assets[name] else [];
      var empty := EmptyPaths(list);
      if |empty| > 0 {
        assets := assets[name := Filter(Unselected(empty), list)];
      }
      reply := Cleaned(|empty|);
    }

    method UploadMavenArtifact(
        name: string, groupId: string, artifactId: string, version: string, packaging: string, size: int, now: string)
      returns (reply: Reply)
      modifies `assets
      ensures (View(), reply)
           == UploadMaven(old(View()), name, MavenFiles(groupId, artifactId, version, packaging, size, now))
    {
      hide MavenFiles, Find, Upsert;
      var repo := Find(repositories, name);
      if repo.None? {
        return Missing;
      }
      if repo.value.format != "maven" || repo.value.kind != "hosted" {
        return Conflict;
      }
      var entries := MavenFiles(groupId, artifactId, version, packaging, size, now);
      var list, files := if name in assets then assets[name] else [], [];
      for i := 0 to |entries|
        invariant list == UpsertAll(old(View()).AssetsOf(name), entries[..i])
        invariant files == Paths(entries[..i])
      {
        assert entries[..i + 1][..i] == entries[..i];
        list := Upsert(list, entries[i]);
        files := files + [entries[i].path];
      }
      assert entries[..|entries|] == entries;
      assets := assets[name := list];
      reply := Uploaded(files);
    }

    method CreateRepository(name: string, format: string, kind: string, visibility: string) returns (reply: Reply)
      modifies `repositories, `repositoryIds
      ensures (View(), reply) == Create(old(View()), name, format, kind, visibility)
    {
      if Find(repositories, name).Some? {
        return Missing;
      }
      repositoryIds := repositoryIds + 1;
      repositories := repositories + [Repository(repositoryIds, name, format, kind, visibility)];
      reply := Created;
    }

    method DeleteRepository(name: string) returns (reply: Reply)
      modifies `repositories, `assets, `acls, `connStatus, `volumeClones
      ensures (View(), reply) == RemoveRepository(old(View()), name)
    {
      hide Filter, Doomed;
      var before := |repositories|;
      var doomed := DoomedNames(repositories, name);
      repositories := Filter(OutsideOf(doomed), repositories);
      acls, assets, connStatus := acls - doomed, assets - doomed, connStatus - doomed;
      volumeClones := Filter(NotIn(doomed), volumeClones);
      reply := if |repositories| < before then Deleted else Absent;
    }

    method ReconcileVolumeRepositories(factor: int)
      modifies `repositories, `assets, `acls, `connStatus, `volumeClones, `volumeFactor
      ensures View() == Reconcile(old(View()), factor)
    {
      hide AddRounds, AddRound, AddClone, Without;
      if volumeFactor == factor {
        return;
      }
      RecallClones();
      volumeClones, volumeFactor := [], factor;
      if factor <= 1 {
        return;
      }
      ghost var base := View();
      var seeds := repositories;
      NoRounds(base, seeds);
      for round := 1 to factor
        invariant View() == AddRounds(base, seeds, round - 1)
      {
        MaterialiseRound(seeds, round);
        NextRound(base, seeds, round);
      }
    }

    method RecallClones()
      modifies `repositories, `assets, `acls, `connStatus
      ensures View() == Without(old(View()), Names(volumeClones))
    {
      hide Without, Names;
      NothingRecalled(View());
      for i := 0 to |volumeClones|
        invariant View() == Without(old(View()), Names(volumeClones[..i]))
      {
        var clone := volumeClones[i];
        OneRecalled(old(View()), volumeClones, i);
        WithoutOne(View(), clone);
        repositories := Filter(OutsideOf({clone}), repositories);
        acls, assets, connStatus := acls - {clone}, assets - {clone}, connStatus - {clone};
      }
      assert volumeClones[..|volumeClones|] == volumeClones;
    }

    method MaterialiseRound(seeds: seq<Repository>, round: nat)
      modifies `repositories, `assets, `acls, `connStatus, `volumeClones
      ensures View() == AddRound(old(View()), seeds, round)
    {
      hide CloneName;
      for i := 0 to |seeds|
        invariant View() == AddRound(old(View()), seeds[..i], round)
      {
        assert seeds[..i + 1][..i] == seeds[..i];
        MaterialiseClone(seeds[i], round);
      }
      assert seeds[..|seeds|] == seeds;
    }

    method MaterialiseClone(seed: Repository, round: nat)
      modifies `repositories, `assets, `acls, `connStatus, `volumeClones
      ensures View() == AddClone(old(View()), seed, round)
    {
      hide CloneName;
      var name := CloneName(seed.name, round);
      repositories := repositories + [seed.(id := seed.id + round * 1_000_000, name := name)];
      if seed.name in assets {
        assets := assets[name := assets[seed.name]];
      }
      if seed.name in connStatus {
        connStatus := connStatus[name := connStatus[seed.name]];
      }
      if seed.name in acls {
        acls := acls[name := acls[seed.name]];
      }
      volumeClones := volumeClones + [name];
    }

    /** The files and directories of one level; None for a missing repository. */
    method ListDirectory(name: string, prefix: string, locale: (string, string) -> bool)
      returns (missing: bool, directories: seq<string>, files: seq<Asset>)
      ensures missing == Find(repositories, name).None?
      ensures !missing ==>
        && files == SortBy(StoreDirectory.ByPath(locale), Filter(StoreDirectory.FileAt(prefix), View().AssetsOf(name)))
        && Distinct(directories)
        && (forall i, j :: 0 <= i < j < |directories| ==> Before(directories[i], directories[j]))
        && forall d :: d in directories <==>
             exists a :: a in View().AssetsOf(name) && StoreDirectory.IsIn(prefix, d, a.path)
    {
      if Find(repositories, name).None? {
        return true, [], [];
      }
      missing := false;
      directories, files := StoreDirectory.ListDirectory(if name in assets then assets[name] else [], prefix, locale);
    }

    /** Serves any request as the step it stands for; the asset paths of every repository stay distinct. */
    method Serve(request: Request, now: string) returns (reply: Reply)
      modifies this
      ensures (View(), reply) == Step(old(View()), request, now)
      ensures old(Valid(View())) ==> Valid(View()) && (Refused(reply) ==> View() == old(View()))
    {
      hide PutRaw, DeleteRaw, Apply, Cleanup, UploadMaven, Create, RemoveRepository, Reconcile, Valid;
      if Valid(View()) {
        StepKeepsValid(View(), request, now);
      }
      match request
      case PutRawAsset(name, path, size, contentType) => reply := PutRawAsset(name, path, size, contentType, now);
      case DeleteRawAsset(name, path) => reply := DeleteRawAsset(name, path);
      case ApplyAssetOperation(name, operation) => reply := ApplyAssetOperation(name, operation, now);
      case CleanupEmptyMavenArtifacts(name) => reply := CleanupEmptyMavenArtifacts(name);
      case UploadMavenArtifact(name, groupId, artifactId, version, packaging, size) =>
        reply := UploadMavenArtifact(name, groupId, artifactId, version, packaging, size, now);
      case CreateRepository(name, format, kind, visibility) =>
        reply := CreateRepository(name, format, kind, visibility);
      case DeleteRepository(name) => reply := DeleteRepository(name);
      case ReconcileVolume(factor) =>
        ReconcileVolumeRepositories(factor);
        reply := Reconciled;
    }
  }

  lemma {:induction false} OccupiedPaths(assets: seq<Asset>, action: Action, targets: seq<Target>, destination: string,
                                         selected: set<string>, occupied: set<string>)
    requires selected == Selection(assets, targets) && occupied == set p | p in Paths(assets) && p !in selected
    ensures var plan := Plan(assets, action, targets, destination);
            PlanIsFree(assets, plan) <==> |plan.Values| == |plan.Keys| && forall p :: p in plan ==> plan[p] !in occupied
  {
    hide SelectedByAny;
  }

  lemma {:induction false} NoRounds(s: State, seeds: seq<Repository>)
    ensures AddRounds(s, seeds, 0) == s
  {}

  lemma {:induction false} NextRound(s: State, seeds: seq<Repository>, round: nat)
    requires round > 0
    ensures AddRounds(s, seeds, round) == AddRound(AddRounds(s, seeds, round - 1), seeds, round)
  {}

  lemma {:induction false} NothingRecalled(s: State)
    ensures Without(s, Names([])) == s
  {
    assert Names([]) == {};
    WithoutNothing(s, {});
  }

  lemma {:induction false} WithoutOne(s: State, clone: string)
    ensures Without(s, {clone})
         == s.(repositories := Filter(OutsideOf({clone}), s.repositories), assets := s.assets - {clone},
               acls := s.acls - {clone},                connStatus := s.connStatus - {clone})
  {}

  lemma {:induction false} OutsideBoth(names: set<string>, more: set<string>, repositories: seq<Repository>)
    ensures Filter(OutsideOf(more), Filter(OutsideOf(names), repositories))
         == Filter(OutsideOf(names + more), repositories)
  {
    if repositories != [] {
      hide Filter;
      var init, last := repositories[..|repositories| - 1], repositories[|repositories| - 1];
      Unsnoc(repositories);
      OutsideBoth(names, more, init);
      FilterStep(OutsideOf(names), init, last);
      FilterStep(OutsideOf(names + more), init, last);
      if last.name !in names {
        FilterStep(OutsideOf(more), Filter(OutsideOf(names), init), last);
      }
    }
  }

  lemma {:induction false} OneRecalled(s: State, clones: seq<string>, i: nat)
    requires i < |clones|
    ensures Without(Without(s, Names(clones[..i])), {clones[i]}) == Without(s, Names(clones[..i + 1]))
  {
    hide Filter;
    var names := Names(clones[..i]);
    assert Names(clones[..i + 1]) == names + {clones[i]};
    OutsideBoth(names, {clones[i]}, s.repositories);
    assert s.assets - names - {clones[i]} == s.assets - (names + {clones[i]});
    assert s.acls - names - {clones[i]} == s.acls - (names + {clones[i]});
    assert s.connStatus - names - {clones[i]} == s.connStatus - (names + {clones[i]});
  }
}
