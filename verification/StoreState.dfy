/** The artifact store's state and what its operations do to it. */
module StoreState {
  import opened Wrappers
  import opened Text
  import opened Seqs
  import opened StorePaths

  datatype Repository = Repository(id: int, name: string, format: string, kind: string, visibility: string)
  datatype AclEntry = AclEntry(subjectId: int, action: string)
  datatype Connection = Connection(status: string, description: string)

  datatype State = State(repositories: seq<Repository>, assets: map<string, seq<Asset>>,
                         acls: map<string, seq<AclEntry>>, connStatus: map<string, Connection>,
                         volumeClones: seq<string>, volumeFactor: int, repositoryIds: nat, operations: nat)
  {
    function AssetsOf(name: string): seq<Asset> { if name in assets then assets[name] else [] }

    function WithAssets(name: string, a: seq<Asset>): State { this.(assets := assets[name := a]) }
  }

  function Find(repositories: seq<Repository>, name: string): Option<Repository> {
    if repositories == [] then None
    else if repositories[0].name == name then Some(repositories[0])
    else Find(repositories[1..], name)
  }

  /** What an operation answers: refusals change nothing. */
  datatype Reply = Missing | Conflict | Invalid | Absent | Stored(asset: Asset) | Removed
    | Done(operation: nat, affected: nat)
                 | Cleaned(count: nat) | Uploaded(files: seq<string>) | Created | Deleted | Reconciled

  predicate Refused(r: Reply) { r.Missing? || r.Conflict? || r.Invalid? || r.Absent? }

  // ----- Raw assets -----

  function IndexOf(assets: seq<Asset>, path: string): (i: nat)
    ensures i <= |assets| && (i < |assets| ==> assets[i].path == path)
    ensures forall j :: 0 <= j < i ==> assets[j].path != path
  {
    if assets == [] || assets[0].path == path then 0 else 1 + IndexOf(assets[1..], path)
  }

  /** Replaces the asset at the path, or appends. */
  function Upsert(assets: seq<Asset>, a: Asset): seq<Asset> {
    var i := IndexOf(assets, a.path);
    if i < |assets| then assets[i := a] else assets + [a]
  }

  function DashedSlashes(s: string): string {
    if s == [] then [] else [if s[0] == '/' then '-' else s[0]] + DashedSlashes(s[1..])
  }

  function RawAsset(path: string, size: int, contentType: string, now: string): Asset {
    Asset(path, size, "mock-" + DashedSlashes(path),
          if contentType == "" then "application/octet-stream" else contentType, now)
  }

  function PutRaw(s: State, name: string, path: string, size: int, contentType: string, now: string): (State, Reply) {
    var p := Normalized(path);
    match Find(s.repositories, name)
    case None => (s, Missing)
    case Some(repo) =>
      if p == "" then (s, Missing)
      else if repo.format != "raw" || repo.kind != "hosted" then (s, Conflict)
      else
        var a := RawAsset(p, size, contentType, now);
        (s.WithAssets(name, Upsert(s.AssetsOf(name), a)), Stored(a))
  }

  function DeleteRaw(s: State, name: string, path: string): (State, Reply) {
    var p := Normalized(path);
    match Find(s.repositories, name)
    case None => (s, Missing)
    case Some(repo) =>
      if p == "" then (s, Missing)
      else if repo.format != "raw" || repo.kind != "hosted" then (s, Conflict)
      else
        var a := s.AssetsOf(name);
        var i := IndexOf(a, p);
        if i == |a| then (s, Absent) else (s.WithAssets(name, a[..i] + a[i + 1..]), Removed)
  }

  // ----- Bulk delete, move and rename -----

  const MAX_TARGETS := 500

  datatype Operation = Operation(action: Action, targets: seq<Target>, destinationPath: string, newPath: string)
  {
    function Destination(): string { Normalized(if action.Move? then destinationPath else newPath) }
  }

  function Selection(a: seq<Asset>, targets: seq<Target>): set<string> {
    set p | p in Paths(a) && SelectedByAny(targets, p)
  }

  function Unselected(selected: set<string>): Asset -> bool { (a: Asset) => a.path !in selected }

  /** Why an operation is refused, in the order the checks are made; None when it goes ahead. */
  function Refusal(repo: Repository, a: seq<Asset>, op: Operation): (r: Option<Reply>)
    ensures r.Some? ==> Refused(r.value)
  {
    var selected := Selection(a, op.targets);
    if repo.kind != "hosted" || |op.targets| == 0 || |op.targets| > MAX_TARGETS then Some(Invalid)
    else if exists i :: 0 <= i < |op.targets| && TargetPaths(a, op.targets[i]) == [] then Some(Conflict)
    else if |selected| > MAX_TARGETS then Some(Invalid)
    else if op.action.Delete? then None
    else if repo.format != "raw" || exists i :: 0 <= i < |op.targets| && !op.targets[i].kind.RawPath? then Some(Invalid)
    else if op.action.Rename? && |op.targets| != 1 then Some(Invalid)
    else if op.Destination() == "" then Some(Invalid)
    else if !PlanIsFree(a, Plan(a, op.action, op.targets, op.Destination())) then Some(Conflict)
    else None
  }

  function After(a: seq<Asset>, op: Operation, now: string): seq<Asset> {
    if op.action.Delete? then Filter(Unselected(Selection(a, op.targets)), a)
    else Replaced(a, Plan(a, op.action, op.targets, op.Destination()), now)
  }

  function Apply(s: State, name: string, op: Operation, now: string): (State, Reply) {
    match Find(s.repositories, name)
    case None => (s, Missing)
    case Some(repo) =>
      var a := s.AssetsOf(name);
      match Refusal(repo, a, op)
      case Some(reply) => (s, reply)
      case None =>
        (s.WithAssets(name, After(a, op, now)).(operations := s.operations + 1),
         Done(s.operations + 1, |Selection(a, op.targets)|))
  }

  // ----- Maven -----

  /** The text before the last slash; None when there is no slash beyond the first character. */
  function Folder(path: string): Option<string> {
    if |path| < 2 then None
    else if path[|path| - 1] == '/' then Some(path[..|path| - 1])
    else Folder(path[..|path| - 1])
  }

  /** The folder is the text before the last slash, when that is not empty. */
  lemma {:induction false} FolderIsBeforeLastSlash(path: string)
    ensures match Folder(path)
            case Some(f) => f != "" && |f| < |path| && path[..|f|] == f && path[|f|] == '/' && '/' !in path[|f| + 1..]
            case None => forall i :: 0 < i < |path| ==> path[i] != '/'
  {
    if |path| >= 2 && path[|path| - 1] != '/' {
      FolderIsBeforeLastSlash(path[..|path| - 1]);
    }
  }

  /** In a version folder: not metadata, and in a folder at all. */
  predicate InVersion(a: Asset) { !Contains(a.path, "maven-metadata.xml") && Folder(a.path).Some? }

  function VersionOf(a: Asset): string { match Folder(a.path) case Some(f) => f case None => "" }

  predicate IsJar(a: Asset) { EndsWith(a.path, ".jar") }

  /** In a version folder that holds no jar. */
  predicate InEmptyVersion(assets: seq<Asset>, a: Asset) {
    InVersion(a) && forall b :: b in assets && InVersion(b) && VersionOf(b) == VersionOf(a) ==> !IsJar(b)
  }

  function EmptyVersionPaths(assets: seq<Asset>): set<string> {
    set a | a in assets && InEmptyVersion(assets, a) :: a.path
  }

  function Cleanup(s: State, name: string): (State, Reply) {
    match Find(s.repositories, name)
    case None => (s, Missing)
    case Some(repo) =>
      if repo.format != "maven" || repo.kind != "hosted" then (s, Conflict)
      else
        var empty := EmptyVersionPaths(s.AssetsOf(name));
        (if |empty| > 0 then s.WithAssets(name, Filter(Unselected(empty), s.AssetsOf(name))) else s, Cleaned(|empty|))
  }

  function SlashedDots(s: string): string {
    if s == [] then [] else [if s[0] == '.' then '/' else s[0]] + SlashedDots(s[1..])
  }

  const MAVEN_HASH := "f0e1d2c3b4a5f0e1d2c3b4a5f0e1d2c3b4a5f0e1d2c3b4a5f0e1d2c3b4a5f0e1"

  function WithChecksums(path: string, size: int, contentType: string, now: string): seq<Asset> {
    [Asset(path, size, MAVEN_HASH, contentType, now),
     Asset(path + ".md5", 32, MAVEN_HASH, "text/plain", now),
     Asset(path + ".sha1", 40, MAVEN_HASH, "text/plain", now)]
  }

  function MavenFiles(
      groupId: string, artifactId: string, version: string, packaging: string, size: int, now: string): seq<Asset>
  {
    var folder := SlashedDots(groupId) + "/" + artifactId;
    var file := folder + "/" + version + "/" + artifactId + "-" + version;
    WithChecksums(file + "." + packaging, size, "application/java-archive", now)
    + (if packaging != "pom" then WithChecksums(file + ".pom", 512, "application/xml", now) else [])
    + WithChecksums(folder + "/maven-metadata.xml", 256, "application/xml", now)
  }

  function UpsertAll(assets: seq<Asset>, files: seq<Asset>): seq<Asset> {
    if files == [] then assets else Upsert(UpsertAll(assets, files[..|files| - 1]), files[|files| - 1])
  }

  function UploadMaven(s: State, name: string, files: seq<Asset>): (State, Reply) {
    match Find(s.repositories, name)
    case None => (s, Missing)
    case Some(repo) =>
      if repo.format != "maven" || repo.kind != "hosted" then (s, Conflict)
      else (s.WithAssets(name, UpsertAll(s.AssetsOf(name), files)), Uploaded(Paths(files)))
  }

  // ----- Repositories -----

  function Create(s: State, name: string, format: string, kind: string, visibility: string): (State, Reply) {
    if Find(s.repositories, name).Some? then (s, Missing)
    else (s.(repositories := s.repositories + [Repository(s.repositoryIds + 1, name, format, kind, visibility)],
             repositoryIds := s.repositoryIds + 1), Created)
  }

  // ----- What every operation keeps -----

  ghost predicate Valid(s: State) { forall name :: name in s.assets ==> DistinctPaths(s.assets[name]) }

  lemma {:induction false} PathsOfUpsert(assets: seq<Asset>, a: Asset)
    ensures DistinctPaths(assets) ==> DistinctPaths(Upsert(assets, a))
    ensures forall p :: p in Paths(Upsert(assets, a)) <==> p in Paths(assets) || p == a.path
  {
    var i, before, after := IndexOf(assets, a.path), Paths(assets), Paths(Upsert(assets, a));
    if i < |assets| {
      assert after == before;
    } else {
      assert after == before + [a.path];
    }
  }

  lemma {:induction false} UpsertAllDistinct(assets: seq<Asset>, files: seq<Asset>)
    requires DistinctPaths(assets)
    ensures DistinctPaths(UpsertAll(assets, files))
  {
    if files != [] {
      UpsertAllDistinct(assets, files[..|files| - 1]);
      PathsOfUpsert(UpsertAll(assets, files[..|files| - 1]), files[|files| - 1]);
    }
  }

  lemma {:induction false} LastPathIsNew(init: seq<Asset>, last: Asset, kept: seq<Asset>)
    requires DistinctPaths(init + [last]) && forall a :: a in kept ==> a in init
    ensures DistinctPaths(init) && (DistinctPaths(kept) ==> DistinctPaths(kept + [last]))
  {
    var all, some, more := Paths(init + [last]), Paths(init), Paths(kept + [last]);
    forall i, j | 0 <= i < j < |some| ensures some[i] != some[j] {
      assert all[i] == some[i] && all[j] == some[j];
    }
    forall i | 0 <= i < |kept| ensures more[i] == Paths(kept)[i] != last.path {
      assert kept[i] in kept;
      var k :| 0 <= k < |init| && init[k] == kept[i];
      assert all[k] != all[|init|];
    }
  }

  lemma {:induction false} FilterPaths(p: Asset -> bool, assets: seq<Asset>)
    requires DistinctPaths(assets)
    ensures DistinctPaths(Filter(p, assets))
  {
    if assets != [] {
      hide Filter, DistinctPaths;
      var init, last := assets[..|assets| - 1], assets[|assets| - 1];
      Unsnoc(assets);
      LastPathIsNew(init, last, Filter(p, init));
      FilterPaths(p, init);
      FilterStep(p, init, last);
    }
  }

  lemma {:induction false} RemoveAtDistinct(assets: seq<Asset>, i: nat)
    requires DistinctPaths(assets) && i < |assets|
    ensures DistinctPaths(assets[..i] + assets[i + 1..])
  {
    var before, after := Paths(assets), Paths(assets[..i] + assets[i + 1..]);
    assert after == before[..i] + before[i + 1..];
  }

  /** In a valid state no operation on assets puts two assets at one path, and a refusal changes nothing. */
  lemma {:induction false} OperationsKeepPathsDistinct(
      s: State, name: string, path: string, size: int, contentType: string, op: Operation, files: seq<Asset>,
      now: string)
    requires Valid(s)
    ensures Valid(PutRaw(s, name, path, size, contentType, now).0) && Valid(DeleteRaw(s, name, path).0)
    ensures Valid(Apply(s, name, op, now).0) && Valid(Cleanup(s, name).0) && Valid(UploadMaven(s, name, files).0)
    ensures Refused(PutRaw(s, name, path, size, contentType, now).1) ==>
      PutRaw(s, name, path, size, contentType, now).0 == s
    ensures Refused(DeleteRaw(s, name, path).1) ==> DeleteRaw(s, name, path).0 == s
    ensures Refused(Apply(s, name, op, now).1) ==> Apply(s, name, op, now).0 == s
    ensures Refused(Cleanup(s, name).1) ==> Cleanup(s, name).0 == s
    ensures Refused(UploadMaven(s, name, files).1) ==> UploadMaven(s, name, files).0 == s
  {
    hide Find, Normalized, Plan, Selection, TargetPaths, Paths, Upsert, UpsertAll, EmptyVersionPaths, RawAsset, IndexOf,
         Filter,
         DistinctPaths, Replaced, PlanIsFree;
    var a := s.AssetsOf(name);
    assert DistinctPaths(a) by { NoAssets(); }
    PathsOfUpsert(a, RawAsset(Normalized(path), size, contentType, now));
    UpsertAllDistinct(a, files);
    FilterPaths(Unselected(EmptyVersionPaths(a)), a);
    var i := IndexOf(a, Normalized(path));
    if i < |a| {
      RemoveAtDistinct(a, i);
    }
    if op.action.Delete? {
      FilterPaths(Unselected(Selection(a, op.targets)), a);
    } else if PlanIsFree(a, Plan(a, op.action, op.targets, op.Destination())) {
      ReplacedDistinct(a, Plan(a, op.action, op.targets, op.Destination()), now);
    }
  }

  lemma {:induction false} NoAssets()
    ensures DistinctPaths([])
  {}

  /** The contents of an asset, without its place and time. */
  function Contents(a: Asset): (int, string, string) { (a.size, a.hash, a.contentType) }

  lemma {:induction false} KeptCount(a: seq<Asset>, selected: set<string>)
    requires DistinctPaths(a) && forall p :: p in selected ==> p in Paths(a)
    ensures |Filter(Unselected(selected), a)| == |a| - |selected|
  {
    if a == [] {
      assert selected == {};
    } else {
      var init, last := a[..|a| - 1], a[|a| - 1];
      assert Paths(a) == Paths(init) + [last.path];
      var rest := selected - {last.path};
      KeptCount(init, rest);
      forall x | x in init ensures Unselected(rest)(x) == Unselected(selected)(x) {
        var k :| 0 <= k < |init| && init[k] == x;
        assert Paths(a)[k] != Paths(a)[|init|];
      }
      FilterAgrees(Unselected(rest), Unselected(selected), init);
    }
  }

  function Chosen(targets: seq<Target>): Asset -> bool { (a: Asset) => SelectedByAny(targets, a.path) }

  function NotChosen(targets: seq<Target>): Asset -> bool { (a: Asset) => !SelectedByAny(targets, a.path) }

  lemma {:induction false} SelectionSplits(a: seq<Asset>, targets: seq<Target>)
    requires DistinctPaths(a)
    ensures Filter(Unselected(Selection(a, targets)), a) == Filter(NotChosen(targets), a)
    ensures |Filter(Chosen(targets), a)| == |Selection(a, targets)| == |a| - |Filter(NotChosen(targets), a)|
  {
    hide Filter, SelectedByAny, DistinctPaths;
    var selected := Selection(a, targets);
    KeptCount(a, selected);
    assert forall i :: 0 <= i < |a| ==> Paths(a)[i] == a[i].path;
    assert forall x :: x in a ==> Unselected(selected)(x) == NotChosen(targets)(x);
    FilterAgrees(Unselected(selected), NotChosen(targets), a);
    SplitCount(Chosen(targets), NotChosen(targets), a);
  }

  lemma {:induction false} ReplacedAt(a: seq<Asset>, op: Operation, now: string, i: nat)
    requires i < |a|
    ensures var (plan, b) := (Plan(a, op.action, op.targets, op.Destination()),
                              Replaced(a, Plan(a, op.action, op.targets, op.Destination()), now)[i]);
            && Contents(b) == Contents(a[i])
            && if SelectedByAny(op.targets, a[i].path) then a[i].path in plan && b.path == plan[a[i].path]
               else b == a[i]
  {
    hide SelectedByAny, Operation.Destination;
    assert Paths(a)[i] == a[i].path;
  }

  /** An accepted move or rename keeps the number of assets, their order and their contents, and puts
      exactly the selected ones at their planned paths; an accepted delete removes exactly the selected
      ones. Either way the reply counts the assets affected. */
  lemma {:induction false} AcceptedOperationAffects(s: State, name: string, op: Operation, now: string)
    requires Valid(s) && Apply(s, name, op, now).1.Done?
    ensures var (before, after) := (s.AssetsOf(name), Apply(s, name, op, now).0.AssetsOf(name));
            var plan := Plan(before, op.action, op.targets, op.Destination());
            && Apply(s, name, op, now).1.affected == |Filter(Chosen(op.targets), before)|
            && if op.action.Delete? then
                 && after == Filter(NotChosen(op.targets), before)
                 && |after| == |before| - Apply(s, name, op, now).1.affected
               else
                 && |after| == |before|
                 && forall i :: 0 <= i < |before| ==>
                      && Contents(after[i]) == Contents(before[i])
                      && if SelectedByAny(op.targets, before[i].path)
                         then before[i].path in plan && after[i].path == plan[before[i].path] else after[i] == before[i]
    ensures forall other :: other != name ==> Apply(s, name, op, now).0.AssetsOf(other) == s.AssetsOf(other)
  {
    hide Find, Refusal, Filter, SelectedByAny, Selection, Plan, Contents, Operation.Destination, DistinctPaths, Chosen,
         NotChosen, Unselected, Replaced;
    var a := s.AssetsOf(name);
    assert DistinctPaths(a) by { NoAssets(); }
    SelectionSplits(a, op.targets);
    if !op.action.Delete? {
      forall i | 0 <= i < |a| {
        ReplacedAt(a, op, now, i);
      }
    }
  }

  /** An accepted move puts every selected asset under the destination: at its whole old path when the last
      target that selects it is a directory above it, else at its old base name. */
  lemma {:induction false} AcceptedMoveKeepsNames(s: State, name: string, op: Operation, now: string, i: nat)
    requires Valid(s) && Apply(s, name, op, now).1.Done? && op.action.Move?
    requires i < |s.AssetsOf(name)| && SelectedByAny(op.targets, s.AssetsOf(name)[i].path)
    ensures var (before, after) := (s.AssetsOf(name), Apply(s, name, op, now).0.AssetsOf(name));
            |after| == |before| &&
            exists k: nat ::
              && k < |op.targets|
              && LastToSelect(op.targets, k, before, Move, op.Destination(), before[i].path, after[i].path)
              && MovedTo(before, op.targets[k], op.Destination(), before[i].path, after[i].path)
  {
    hide Find, Refusal, Filter, Plan, Contents, Operation.Destination, Valid, Chosen, NotChosen, SelectedByAny, Apply,
         Selects, MovedTo, NextPath, IsDirectory, Normalized;
    AcceptedOperationAffects(s, name, op, now);
    var a := s.AssetsOf(name);
    var k := PlanFollowsLastTarget(a, op.action, op.targets, op.Destination(), a[i].path);
    MovedByTarget(a, op.targets[k], op.Destination(), a[i].path);
  }

  predicate MovedTo(assets: seq<Asset>, t: Target, destination: string, path: string, next: string) {
    var source := Normalized(t.path);
    if !IsDirectory(assets, t) then next == destination + "/" + BaseName(path)
    else if Under(path, source) then next == destination + "/" + path
    else next == destination + "/" + path + "/"
  }

  lemma {:induction false} MovedByTarget(assets: seq<Asset>, t: Target, destination: string, path: string)
    requires Selects(t, path)
    ensures MovedTo(assets, t, destination, path,
                    NextPath(Move, Normalized(t.path), IsDirectory(assets, t), destination, path))
  {
    hide IsDirectory, Normalized, NextPath;
    MoveKeepsNames(Normalized(t.path), IsDirectory(assets, t), destination, path);
  }

  lemma {:induction false} SplitCount<T(!new)>(p: T -> bool, q: T -> bool, s: seq<T>)
    requires forall x :: x in s ==> p(x) == !q(x)
    ensures |Filter(p, s)| + |Filter(q, s)| == |s|
  {
    if s != [] {
      Unsnoc(s);
      SplitCount(p, q, s[..|s| - 1]);
    }
  }

  /** Cleaning up removes exactly the assets of version folders without a jar, and reports how many. */
  lemma {:induction false} CleanupRemovesEmptyVersions(s: State, name: string)
    requires Valid(s) && Cleanup(s, name).1.Cleaned?
    ensures var (before, after) := (s.AssetsOf(name), Cleanup(s, name).0.AssetsOf(name));
            && after == Filter((a: Asset) => !InEmptyVersion(before, a), before)
            && Cleanup(s, name).1.count == |before| - |after|
  {
    hide Find, Filter, InEmptyVersion;
    var a := s.AssetsOf(name);
    var empty := EmptyVersionPaths(a);
    assert DistinctPaths(a) by { NoAssets(); }
    forall p | p in empty ensures p in Paths(a) {
      var x :| x in a && InEmptyVersion(a, x) && x.path == p;
      var k :| 0 <= k < |a| && a[k] == x;
      assert Paths(a)[k] == p;
    }
    KeptCount(a, empty);
    forall x | x in a ensures Unselected(empty)(x) == !InEmptyVersion(a, x) {
      if x.path in empty {
        var y :| y in a && InEmptyVersion(a, y) && y.path == x.path;
        SamePathSameAsset(a, x, y);
      }
    }
    FilterAgrees(Unselected(empty), (x: Asset) => !InEmptyVersion(a, x), a);
    if empty == {} {
      assert forall x :: x in a ==> Unselected(empty)(x);
      FilterAll(Unselected(empty), a);
    }
  }

  lemma {:induction false} SamePathSameAsset(a: seq<Asset>, x: Asset, y: Asset)
    requires DistinctPaths(a) && x in a && y in a && x.path == y.path
    ensures x == y
  {
    var i :| 0 <= i < |a| && a[i] == x;
    var j :| 0 <= j < |a| && a[j] == y;
    assert Paths(a)[i] == Paths(a)[j];
  }

  // ----- Storing at a path -----

  function AtPath(p: string): Asset -> bool { (a: Asset) => a.path == p }

  function AtOtherPath(p: string): Asset -> bool { (a: Asset) => a.path != p }

  lemma {:induction false} FilterAround<T(!new)>(p: T -> bool, before: seq<T>, x: T, after: seq<T>)
    ensures Filter(p, before + [x] + after) == Filter(p, before) + (if p(x) then [x] else []) + Filter(p, after)
  {
    hide Filter;
    FilterConcat(p, before + [x], after);
    FilterStep(p, before, x);
    assert Filter(p, before) + [] == Filter(p, before);
  }

  /** Storing an asset touches no asset that keep tells from it. */
  lemma {:induction false} UpsertKeepsOthers(assets: seq<Asset>, a: Asset, keep: Asset -> bool)
    requires forall x: Asset :: x.path == a.path ==> !keep(x)
    ensures Filter(keep, Upsert(assets, a)) == Filter(keep, assets)
  {
    hide Filter;
    var i := IndexOf(assets, a.path);
    if i < |assets| {
      assert assets == assets[..i] + [assets[i]] + assets[i + 1..];
      assert assets[i := a] == assets[..i] + [a] + assets[i + 1..];
      FilterAround(keep, assets[..i], assets[i], assets[i + 1..]);
      FilterAround(keep, assets[..i], a, assets[i + 1..]);
    } else {
      FilterStep(keep, assets, a);
    }
  }

  lemma {:induction false} OnlyOneAt(assets: seq<Asset>, i: nat)
    requires DistinctPaths(assets) && i < |assets|
    ensures forall x :: x in assets[i + 1..] ==> x.path != assets[i].path
  {
    forall x | x in assets[i + 1..] ensures x.path != assets[i].path {
      var j :| i < j < |assets| && assets[j] == x;
      assert Paths(assets)[i] != Paths(assets)[j];
    }
  }

  /** After it, the asset is the only one at its path. */
  lemma {:induction false} UpsertStores(assets: seq<Asset>, a: Asset)
    requires DistinctPaths(assets)
    ensures Filter(AtPath(a.path), Upsert(assets, a)) == [a]
  {
    hide Filter;
    var i := IndexOf(assets, a.path);
    if i < |assets| {
      assert assets[i := a] == assets[..i] + [a] + assets[i + 1..];
      FilterAround(AtPath(a.path), assets[..i], a, assets[i + 1..]);
      NoneKept(AtPath(a.path), assets[..i]);
      OnlyOneAt(assets, i);
      NoneKept(AtPath(a.path), assets[i + 1..]);
    } else {
      NoneKept(AtPath(a.path), assets);
      FilterStep(AtPath(a.path), assets, a);
    }
    assert [] + [a] + [] == [a] && [] + [a] == [a];
  }

  lemma {:induction false} RemovedAt(assets: seq<Asset>, p: string)
    requires DistinctPaths(assets)
    ensures var i := IndexOf(assets, p);
            i < |assets| ==> assets[..i] + assets[i + 1..] == Filter(AtOtherPath(p), assets)
  {
    hide Filter, DistinctPaths;
    var i := IndexOf(assets, p);
    if i < |assets| {
      OnlyOneAt(assets, i);
      FilterAll(AtOtherPath(p), assets[..i]);
      FilterAll(AtOtherPath(p), assets[i + 1..]);
      FilterAround(AtOtherPath(p), assets[..i], assets[i], assets[i + 1..]);
      assert assets == assets[..i] + [assets[i]] + assets[i + 1..];
      assert assets[..i] + [] == assets[..i];
    }
  }

  /** A raw upload leaves exactly its own asset at the normalised path and all others as they were, and
      deleting it again leaves exactly the others, in their order. */
  lemma {:induction false} PutThenDelete(
      s: State, name: string, path: string, size: int, contentType: string, now: string)
    requires Valid(s) && PutRaw(s, name, path, size, contentType, now).1.Stored?
    ensures var p := Normalized(path);
            var (t, reply) := PutRaw(s, name, path, size, contentType, now);
            && reply.asset.path == p && reply.asset.size == size
            && Filter(AtPath(p), t.AssetsOf(name)) == [reply.asset]
            && Filter(AtOtherPath(p), t.AssetsOf(name)) == Filter(AtOtherPath(p), s.AssetsOf(name))
            && DeleteRaw(t, name, path).1 == Removed
            && DeleteRaw(t, name, path).0.AssetsOf(name) == Filter(AtOtherPath(p), s.AssetsOf(name))
  {
    hide Find, Normalized, Filter, Upsert, IndexOf, DistinctPaths, DashedSlashes;
    var p, before := Normalized(path), s.AssetsOf(name);
    var a := RawAsset(p, size, contentType, now);
    assert DistinctPaths(before) by { NoAssets(); }
    PathsOfUpsert(before, a);
    UpsertStores(before, a);
    UpsertKeepsOthers(before, a, AtOtherPath(p));
    var after := Upsert(before, a);
    assert a in Filter(AtPath(p), after);
    RemovedAt(after, p);
    IndexOfStored(after, a);
  }

  lemma {:induction false} IndexOfStored(assets: seq<Asset>, a: Asset)
    requires a in assets
    ensures IndexOf(assets, a.path) < |assets|
  {
    var j :| 0 <= j < |assets| && assets[j] == a;
    assert IndexOf(assets, a.path) <= j;
  }

  function OutsidePaths(files: seq<Asset>): Asset -> bool { (a: Asset) => a.path !in Paths(files) }

  lemma {:induction false} LastUpsert(assets: seq<Asset>, files: seq<Asset>)
    requires files != []
    ensures UpsertAll(assets, files) == Upsert(UpsertAll(assets, files[..|files| - 1]), files[|files| - 1])
  {}

  lemma {:induction false} UpsertAllKeepsOthers(assets: seq<Asset>, files: seq<Asset>, keep: Asset -> bool)
    requires forall i, x: Asset :: 0 <= i < |files| && x.path == files[i].path ==> !keep(x)
    ensures Filter(keep, UpsertAll(assets, files)) == Filter(keep, assets)
  {
    if files != [] {
      hide Filter, Upsert, UpsertAll;
      LastUpsert(assets, files);
      UpsertAllKeepsOthers(assets, files[..|files| - 1], keep);
      UpsertKeepsOthers(UpsertAll(assets, files[..|files| - 1]), files[|files| - 1], keep);
    } else {
      assert UpsertAll(assets, files) == assets;
    }
  }

  lemma {:induction false} UpsertAllPaths(assets: seq<Asset>, files: seq<Asset>)
    ensures forall p :: p in Paths(UpsertAll(assets, files)) <==> p in Paths(assets) || p in Paths(files)
  {
    if files != [] {
      hide Upsert, UpsertAll;
      var init, last := files[..|files| - 1], files[|files| - 1];
      LastUpsert(assets, files);
      UpsertAllPaths(assets, init);
      PathsOfUpsert(UpsertAll(assets, init), last);
      assert Paths(files) == Paths(init) + [last.path];
    } else {
      assert UpsertAll(assets, files) == assets;
    }
  }

  /** The file is the last one at its path. */
  ghost predicate LastAtPath(files: seq<Asset>, i: nat)
    requires i < |files|
  {
    forall j :: i < j < |files| ==> files[j].path != files[i].path
  }

  lemma {:induction false} UpsertAllStores(assets: seq<Asset>, files: seq<Asset>, i: nat)
    requires DistinctPaths(assets) && i < |files| && LastAtPath(files, i)
    ensures Filter(AtPath(files[i].path), UpsertAll(assets, files)) == [files[i]]
  {
    var init, last := files[..|files| - 1], files[|files| - 1];
    hide Filter, Upsert, UpsertAll, DistinctPaths;
    LastUpsert(assets, files);
    if i < |init| {
      assert init[i] == files[i];
      UpsertAllStores(assets, init, i);
      UpsertKeepsOthers(UpsertAll(assets, init), last, AtPath(files[i].path));
    } else {
      UpsertAllDistinct(assets, init);
      UpsertStores(UpsertAll(assets, init), last);
    }
  }

  /** An accepted upload leaves the repository with exactly the old paths and the uploaded ones, touches no other
      asset, and stores at each path exactly the last file uploaded there. */
  lemma {:induction false} UploadAddsItsFiles(s: State, name: string, files: seq<Asset>)
    requires Valid(s) && files != [] && UploadMaven(s, name, files).1.Uploaded?
    ensures var (before, after) := (s.AssetsOf(name), UploadMaven(s, name, files).0.AssetsOf(name));
            && (forall p :: p in Paths(after) <==> p in Paths(before) || p in Paths(files))
            && Filter(OutsidePaths(files), after) == Filter(OutsidePaths(files), before)
            && forall i :: 0 <= i < |files| && LastAtPath(files, i) ==>
                 Filter(AtPath(files[i].path), after) == [files[i]]
  {
    hide Find, Filter, DistinctPaths, UpsertAll, LastAtPath;
    var before := s.AssetsOf(name);
    assert DistinctPaths(before) by { NoAssets(); }
    forall i, x: Asset | 0 <= i < |files| && x.path == files[i].path ensures !OutsidePaths(files)(x) {
      assert Paths(files)[i] == x.path;
    }
    UpsertAllKeepsOthers(before, files, OutsidePaths(files));
    UpsertAllPaths(before, files);
    forall i | 0 <= i < |files| && LastAtPath(files, i)
      ensures Filter(AtPath(files[i].path), UpsertAll(before, files)) == [files[i]]
    {
      UpsertAllStores(before, files, i);
    }
  }
}
