/** The operations on assets written out: what each answers, which assets it reaches, and where those go. */
module StoreAnswers {
  import opened Wrappers
  import opened Text
  import opened Seqs
  import opened StorePaths
  import opened StoreState

  /** One of the targets names the asset: by its own path, or, unless the target is a single asset, as a directory
      above it. A target whose path is nothing but slashes names none. */
  predicate Reaches(targets: seq<Target>, a: Asset) {
    exists i :: 0 <= i < |targets| && ReachesOne(targets[i], a)
  }

  predicate ReachesOne(t: Target, a: Asset) {
    var p := Normalized(t.path);
    p != "" && (a.path == p || (t.kind != AssetPath && p + "/" <= a.path))
  }

  function Reached(targets: seq<Target>): Asset -> bool { (a: Asset) => Reaches(targets, a) }

  function Spared(targets: seq<Target>): Asset -> bool { (a: Asset) => !Reaches(targets, a) }

  predicate Misses(t: Target, assets: seq<Asset>) { forall a :: a in assets ==> !ReachesOne(t, a) }

  /** Some target reaches nothing. */
  predicate OneMisses(targets: seq<Target>, assets: seq<Asset>) {
    exists i :: 0 <= i < |targets| && Misses(targets[i], assets)
  }

  lemma {:induction false} SelectsReaches(t: Target, a: Asset)
    ensures Selects(t, a.path) <==> ReachesOne(t, a)
  {
    hide Normalized;
  }

  lemma {:induction false} SelectedReached(targets: seq<Target>, a: Asset)
    ensures SelectedByAny(targets, a.path) <==> Reaches(targets, a)
  {
    hide Selects, ReachesOne;
    forall i | 0 <= i < |targets| ensures Selects(targets[i], a.path) <==> ReachesOne(targets[i], a) {
      SelectsReaches(targets[i], a);
    }
  }

  lemma {:induction false} NoneSelected(t: Target, assets: seq<Asset>)
    ensures TargetPaths(assets, t) == [] <==> Misses(t, assets)
  {
    hide Selects, ReachesOne, Filter;
    var paths := TargetPaths(assets, t);
    assert paths != [] ==> paths[0] in paths;
    forall p ensures p in paths <==> exists a :: a in assets && a.path == p && ReachesOne(t, a) {
      if p in paths {
        var k :| 0 <= k < |assets| && Paths(assets)[k] == p;
        SelectsReaches(t, assets[k]);
        assert assets[k] in assets;
      }
      if a :| a in assets && a.path == p && ReachesOne(t, a) {
        var k :| 0 <= k < |assets| && assets[k] == a;
        assert Paths(assets)[k] == p;
        SelectsReaches(t, a);
      }
    }
    forall a | a in assets && ReachesOne(t, a) ensures a.path in paths {}
  }

  lemma {:induction false} MissesExactly(targets: seq<Target>, assets: seq<Asset>)
    ensures OneMisses(targets, assets) <==> exists i :: 0 <= i < |targets| && TargetPaths(assets, targets[i]) == []
  {
    hide TargetPaths, Misses;
    forall i | 0 <= i < |targets| ensures TargetPaths(assets, targets[i]) == [] <==> Misses(targets[i], assets) {
      NoneSelected(targets[i], assets);
    }
  }

  lemma {:induction false} SelectionReached(targets: seq<Target>, assets: seq<Asset>)
    requires DistinctPaths(assets)
    ensures |Selection(assets, targets)| == |Filter(Reached(targets), assets)|
    ensures Filter(Unselected(Selection(assets, targets)), assets) == Filter(Spared(targets), assets)
  {
    hide SelectedByAny, Reaches, Filter, DistinctPaths, Selection;
    SelectionSplits(assets, targets);
    forall a | a in assets ensures SelectedByAny(targets, a.path) <==> Reaches(targets, a) {
      SelectedReached(targets, a);
    }
    FilterAgrees(Chosen(targets), Reached(targets), assets);
    FilterAgrees(NotChosen(targets), Spared(targets), assets);
  }

  // ----- Deleting -----

  /** What a delete answers and leaves, on every repository and for all targets. */
  lemma {:induction false} DeleteAnswers(s: State, name: string, op: Operation, now: string)
    requires Valid(s) && op.action.Delete?
    ensures var (before, t, reply) := (s.AssetsOf(name), Apply(s, name, op, now).0, Apply(s, name, op, now).1);
            var affected := |Filter(Reached(op.targets), before)|;
            match Find(s.repositories, name)
            case None => reply == Missing && t == s
            case Some(repo) =>
              if repo.kind != "hosted" || !(1 <= |op.targets| <= 500) then reply == Invalid && t == s
              else if OneMisses(op.targets, before) then reply == Conflict && t == s
              else if affected > 500 then reply == Invalid && t == s
              else
                && reply == Done(s.operations + 1, affected)
                && t == s.WithAssets(name, Filter(Spared(op.targets), before)).(operations := s.operations + 1)
  {
    hide Find, Filter, Selection, TargetPaths, DistinctPaths, OneMisses, Unselected, Spared, Reached;
    var a := s.AssetsOf(name);
    assert DistinctPaths(a) by { NoAssets(); }
    SelectionReached(op.targets, a);
    MissesExactly(op.targets, a);
  }

  // ----- Moving and renaming -----

  predicate IsAbove(t: Target, assets: seq<Asset>) {
    t.kind != AssetPath && exists a :: a in assets && Normalized(t.path) + "/" <= a.path
  }

  /** Where a target sends a path it reaches. A move keeps the whole path below the destination when there is anything
      below the target's path, else the base name; a rename puts the destination in place of the target's path. Only
      an asset that sits exactly at the path of a directory gets a path that ends in a slash. */
  function SentTo(action: Action, t: Target, assets: seq<Asset>, destination: string, path: string): string {
    var p := Normalized(t.path);
    if action.Rename? then
      if !IsAbove(t, assets) then destination
      else if path == p then destination + "/" else destination + Drop(path, |p|)
    else
      if !IsAbove(t, assets) then destination + "/" + BaseName(path)
      else if path == p then destination + "/" + path + "/" else destination + "/" + path
  }

  /** The asset went where the last of the targets that reach it sends it. */
  ghost predicate SentByLast(op: Operation, assets: seq<Asset>, destination: string, a: Asset, next: string) {
    exists k :: 0 <= k < |op.targets| && IsLastToReach(op.targets, k, a)
                && next == SentTo(op.action, op.targets[k], assets, destination, a.path)
  }

  ghost predicate IsLastToReach(targets: seq<Target>, k: nat, a: Asset)
    requires k < |targets|
  {
    ReachesOne(targets[k], a) && forall j :: k < j < |targets| ==> !ReachesOne(targets[j], a)
  }

  lemma {:induction false} AboveMeansDirectory(t: Target, assets: seq<Asset>)
    requires Normalized(t.path) != ""
    ensures IsDirectory(assets, t) <==> IsAbove(t, assets)
  {
    hide Normalized, Filter;
    if IsDirectory(assets, t) {
      var p :| p in TargetPaths(assets, t) && Under(p, Normalized(t.path));
      var k :| 0 <= k < |assets| && Paths(assets)[k] == p;
      assert assets[k] in assets;
    }
    if IsAbove(t, assets) {
      var a :| a in assets && Normalized(t.path) + "/" <= a.path;
      var k :| 0 <= k < |assets| && assets[k] == a;
      assert Paths(assets)[k] == a.path;
      SelectsReaches(t, a);
      assert a.path in TargetPaths(assets, t);
    }
  }

  lemma {:induction false} NextIsSentTo(
      action: Action, t: Target, assets: seq<Asset>, destination: string, a: Asset)
    requires a in assets && ReachesOne(t, a) && !action.Delete?
    ensures NextPath(action, Normalized(t.path), IsDirectory(assets, t), destination, a.path)
         == SentTo(action, t, assets, destination, a.path)
  {
    AboveMeansDirectory(t, assets);
    hide Normalized, IsDirectory;
    var p, path := Normalized(t.path), a.path;
    if action.Move? {
      MoveKeepsNames(p, IsDirectory(assets, t), destination, path);
    } else if IsAbove(t, assets) && path != p {
      assert p + "/" <= path;
      assert path[|p|..] == "/" + path[|p| + 1..];
      assert destination + "/" + path[|p| + 1..] == destination + ("/" + path[|p| + 1..]);
    } else if IsAbove(t, assets) {
      assert destination + "/" + "" == destination + "/";
    }
  }

  /** The planned assets: those reached are where their last target sends them, the others as they were. */
  ghost predicate IsMoved(op: Operation, before: seq<Asset>, after: seq<Asset>, destination: string, now: string) {
    && |after| == |before|
    && forall i :: 0 <= i < |before| ==>
         if Reaches(op.targets, before[i]) then
           && SentByLast(op, before, destination, before[i], after[i].path)
           && after[i] == before[i].(path := after[i].path, updatedAt := now)
         else after[i] == before[i]
  }

  lemma {:induction false} PlannedAsset(op: Operation, assets: seq<Asset>, destination: string, now: string, i: nat)
    requires !op.action.Delete? && i < |assets|
    ensures var b := Replaced(assets, Plan(assets, op.action, op.targets, destination), now)[i];
            if Reaches(op.targets, assets[i]) then
              && SentByLast(op, assets, destination, assets[i], b.path)
              && b == assets[i].(path := b.path, updatedAt := now)
            else b == assets[i]
  {
    var a := assets[i];
    assert Paths(assets)[i] == a.path && a in assets;
    SelectedReached(op.targets, a);
    hide Selects, ReachesOne, Normalized, NextPath, SentTo, SelectedByAny, Reaches, Plan, IsDirectory, Paths;
    if Reaches(op.targets, a) {
      var k := PlanFollowsLastTarget(assets, op.action, op.targets, destination, a.path);
      forall j | 0 <= j < |op.targets| ensures Selects(op.targets[j], a.path) <==> ReachesOne(op.targets[j], a) {
        SelectsReaches(op.targets[j], a);
      }
      NextIsSentTo(op.action, op.targets[k], assets, destination, a);
      assert IsLastToReach(op.targets, k, a);
    }
  }

  /** What a move or rename answers and leaves, on every repository and for all targets: it goes ahead exactly when the
      targets all reach something, the repository and the targets are raw, the destination is one, and the planned
      paths are distinct. */
  lemma {:induction false} MoveAnswers(s: State, name: string, op: Operation, now: string)
    returns (planned: seq<Asset>)
    requires Valid(s) && !op.action.Delete?
    ensures var destination := Normalized(if op.action.Move? then op.destinationPath else op.newPath);
            IsMoved(op, s.AssetsOf(name), planned, destination, now)
    ensures var (before, t, reply) := (s.AssetsOf(name), Apply(s, name, op, now).0, Apply(s, name, op, now).1);
            var affected := |Filter(Reached(op.targets), before)|;
            match Find(s.repositories, name)
            case None => reply == Missing && t == s
            case Some(repo) =>
              if repo.kind != "hosted" || !(1 <= |op.targets| <= 500) then reply == Invalid && t == s
              else if OneMisses(op.targets, before) then reply == Conflict && t == s
              else if || affected > 500 || repo.format != "raw"
                      || (exists i :: 0 <= i < |op.targets| && op.targets[i].kind != RawPath)
                      || (op.action.Rename? && |op.targets| > 1)
                      || Normalized(if op.action.Move? then op.destinationPath else op.newPath) == ""
                   then reply == Invalid && t == s
              else if !DistinctPaths(planned) then reply == Conflict && t == s
              else
                && reply == Done(s.operations + 1, affected)
                && t == s.WithAssets(name, planned).(operations := s.operations + 1)
  {
    hide Find, Filter, Selection, TargetPaths, DistinctPaths, OneMisses, Reached, Plan, Replaced, PlanIsFree,
         Normalized, Reaches, SentByLast;
    var a := s.AssetsOf(name);
    assert DistinctPaths(a) by { NoAssets(); }
    SelectionReached(op.targets, a);
    MissesExactly(op.targets, a);
    var plan := Plan(a, op.action, op.targets, op.Destination());
    planned := Replaced(a, plan, now);
    assert |planned| == |a| by { ReplacedSize(a, plan, now); }
    forall i | 0 <= i < |a| {
      PlannedAsset(op, a, op.Destination(), now, i);
    }
    if DistinctPaths(planned) {
      FreeIfReplacedDistinct(a, plan, now);
    }
    if PlanIsFree(a, plan) {
      ReplacedDistinct(a, plan, now);
    }
  }

  lemma {:induction false} ReplacedSize(assets: seq<Asset>, plan: map<string, string>, now: string)
    ensures |Replaced(assets, plan, now)| == |assets|
  {}

  // ----- Raw assets -----

  lemma {:induction false} HashOfPath(path: string)
    ensures |DashedSlashes(path)| == |path|
    ensures forall i :: 0 <= i < |path| ==> DashedSlashes(path)[i] == if path[i] == '/' then '-' else path[i]
  {
    if path != [] {
      HashOfPath(path[1..]);
    }
  }

  /** What a raw upload answers and leaves: the asset stored is alone at the normalised path. */
  lemma {:induction false} PutAnswers(
      s: State, name: string, path: string, size: int, contentType: string, now: string)
    requires Valid(s)
    ensures var (t, reply) := PutRaw(s, name, path, size, contentType, now);
            var p, before, after := Normalized(path), s.AssetsOf(name), t.AssetsOf(name);
            match Find(s.repositories, name)
            case None => reply == Missing && t == s
            case Some(repo) =>
              if p == "" then reply == Missing && t == s
              else if repo.format != "raw" || repo.kind != "hosted" then reply == Conflict && t == s
              else
                && reply.Stored? && reply.asset.path == p && reply.asset.size == size && reply.asset.updatedAt == now
                && reply.asset.contentType == (if contentType == "" then "application/octet-stream" else contentType)
                && |reply.asset.hash| == 5 + |p| && reply.asset.hash[..5] == "mock-"
                && (forall i :: 0 <= i < |p| ==> reply.asset.hash[5 + i] == if p[i] == '/' then '-' else p[i])
                && t == s.WithAssets(name, after)
                && Filter(AtPath(p), after) == [reply.asset]
                && Filter(AtOtherPath(p), after) == Filter(AtOtherPath(p), before)
  {
    hide Find, Normalized, Upsert, DistinctPaths, Filter, DashedSlashes;
    var p, a := Normalized(path), s.AssetsOf(name);
    assert DistinctPaths(a) by { NoAssets(); }
    HashOfPath(p);
    UpsertStores(a, RawAsset(p, size, contentType, now));
    UpsertKeepsOthers(a, RawAsset(p, size, contentType, now), AtOtherPath(p));
  }

  /** What a raw delete answers and leaves: nothing at the path, and everything else in its order. */
  lemma {:induction false} RawDeleteAnswers(s: State, name: string, path: string)
    requires Valid(s)
    ensures var (t, reply) := DeleteRaw(s, name, path);
            var p, before := Normalized(path), s.AssetsOf(name);
            match Find(s.repositories, name)
            case None => reply == Missing && t == s
            case Some(repo) =>
              if p == "" then reply == Missing && t == s
              else if repo.format != "raw" || repo.kind != "hosted" then reply == Conflict && t == s
              else if forall a :: a in before ==> a.path != p then reply == Absent && t == s
              else reply == Removed && t == s.WithAssets(name, Filter(AtOtherPath(p), before))
  {
    hide Find, Normalized, DistinctPaths, Filter;
    var p, a := Normalized(path), s.AssetsOf(name);
    assert DistinctPaths(a) by { NoAssets(); }
    var i := IndexOf(a, p);
    if i < |a| {
      assert a[i] in a;
      RemovedAt(a, p);
    }
  }

  // ----- Maven -----

  /** In a version folder, which is the text before the last slash, that holds no jar; metadata does not count. */
  ghost predicate InFolderWithoutJar(assets: seq<Asset>, a: Asset) {
    && !Contains(a.path, "maven-metadata.xml")
    && exists folder, file ::
         && a.path == folder + "/" + file && folder != "" && '/' !in file
         && !HasJar(assets, folder)
  }

  ghost predicate HasJar(assets: seq<Asset>, folder: string) {
    exists b, file ::
      && b in assets && b.path == folder + "/" + file && '/' !in file
      && !Contains(b.path, "maven-metadata.xml") && EndsWith(b.path, ".jar")
  }

  lemma {:induction false} SlashesEnd(path: string, i: nat)
    requires i < |path| && '/' !in path[i + 1..]
    ensures forall j :: i < j < |path| ==> path[j] != '/'
  {
    forall j | i < j < |path| ensures path[j] != '/' {
      assert path[j] == path[i + 1..][j - i - 1];
    }
  }

  lemma {:induction false} FolderIs(path: string, folder: string, file: string)
    requires path == folder + "/" + file && folder != "" && '/' !in file
    ensures Folder(path) == Some(folder)
  {
    FolderIsBeforeLastSlash(path);
    assert path[|folder|] == '/' && path[|folder| + 1..] == file && path[..|folder|] == folder;
    SlashesEnd(path, |folder|);
    if Folder(path).Some? {
      SlashesEnd(path, |Folder(path).value|);
    }
  }

  lemma {:induction false} FolderSplits(path: string) returns (file: string)
    requires Folder(path).Some?
    ensures path == Folder(path).value + "/" + file && Folder(path).value != "" && '/' !in file
  {
    FolderIsBeforeLastSlash(path);
    file := path[|Folder(path).value| + 1..];
  }

  lemma {:induction false} JarInFolder(assets: seq<Asset>, folder: string)
    requires folder != ""
    ensures HasJar(assets, folder) <==> exists b :: b in assets && InVersion(b) && VersionOf(b) == folder && IsJar(b)
  {
    hide Folder, Contains, EndsWith;
    if HasJar(assets, folder) {
      var b, file :| && b in assets && b.path == folder + "/" + file && '/' !in file
                     && !Contains(b.path, "maven-metadata.xml") && EndsWith(b.path, ".jar");
      FolderIs(b.path, folder, file);
      assert InVersion(b) && VersionOf(b) == folder && IsJar(b);
    }
    if b :| b in assets && InVersion(b) && VersionOf(b) == folder && IsJar(b) {
      var file := FolderSplits(b.path);
    }
  }

  lemma {:induction false} EmptyVersionIs(assets: seq<Asset>, a: Asset)
    ensures InEmptyVersion(assets, a) <==> InFolderWithoutJar(assets, a)
  {
    hide Folder, Contains, EndsWith, HasJar, IsJar;
    if InEmptyVersion(assets, a) {
      var file := FolderSplits(a.path);
      JarInFolder(assets, VersionOf(a));
    }
    if InFolderWithoutJar(assets, a) {
      var folder, file :| a.path == folder + "/" + file && folder != "" && '/' !in file && !HasJar(assets, folder);
      FolderIs(a.path, folder, file);
      JarInFolder(assets, folder);
    }
  }

  /** What a clean-up answers and leaves: the assets of version folders without a jar go, the others stay in order. */
  lemma {:induction false} CleanupAnswers(s: State, name: string)
    requires Valid(s)
    ensures var (t, reply) := Cleanup(s, name);
            var before, after := s.AssetsOf(name), t.AssetsOf(name);
            match Find(s.repositories, name)
            case None => reply == Missing && t == s
            case Some(repo) =>
              if repo.format != "maven" || repo.kind != "hosted" then reply == Conflict && t == s
              else
                && reply == Cleaned(|before| - |after|)
                && (t == s || t == s.WithAssets(name, after))
                && after == Filter((a: Asset) => !InFolderWithoutJar(before, a), before)
  {
    hide Find, Filter, InEmptyVersion, InFolderWithoutJar, DistinctPaths;
    if Cleanup(s, name).1.Cleaned? {
      CleanupRemovesEmptyVersions(s, name);
      var a := s.AssetsOf(name);
      forall x ensures InEmptyVersion(a, x) <==> InFolderWithoutJar(a, x) {
        EmptyVersionIs(a, x);
      }
      FilterAgrees((x: Asset) => !InEmptyVersion(a, x), (x: Asset) => !InFolderWithoutJar(a, x), a);
    }
  }

  const ENDINGS := ["", ".md5", ".sha1"]

  ghost predicate WithEnding(bases: seq<string>, p: string) {
    exists base, ending :: base in bases && ending in ENDINGS && p == base + ending
  }

  /** The paths of an upload: the artifact, its project file, which a "pom" is itself, and the metadata of the artifact,
      each with both checksums. */
  ghost predicate OfUpload(folder: string, version: string, artifactId: string, packaging: string, p: string) {
    var file := folder + "/" + version + "/" + artifactId + "-" + version;
    WithEnding([file + "." + packaging, file + ".pom", folder + "/maven-metadata.xml"], p)
  }

  lemma {:induction false} ChecksumPaths(path: string, size: int, contentType: string, now: string, p: string)
    ensures p in Paths(WithChecksums(path, size, contentType, now)) <==> exists e :: e in ENDINGS && p == path + e
  {
    var paths := Paths(WithChecksums(path, size, contentType, now));
    assert path + "" == path;
    assert paths == [path, path + ".md5", path + ".sha1"];
    assert ENDINGS[0] in ENDINGS && ENDINGS[1] in ENDINGS && ENDINGS[2] in ENDINGS;
  }

  lemma {:induction false} PathsConcat(a: seq<Asset>, b: seq<Asset>)
    ensures Paths(a + b) == Paths(a) + Paths(b)
  {}

  lemma {:induction false} EndingsOfThree(a: string, b: string, c: string, p: string)
    ensures WithEnding([a, b, c], p) <==> exists e :: e in ENDINGS && (p == a + e || p == b + e || p == c + e)
  {
    var bases := [a, b, c];
    assert bases[0] in bases && bases[1] in bases && bases[2] in bases;
  }

  /** The files of one upload; without the second part when it is the first again. */
  lemma {:induction false} PathsOfParts(
      a: string, b: string, c: string, again: bool, sizes: (int, int, int), types: (string, string, string),
      now: string, p: string)
    requires again ==> a == b
    ensures p in Paths(WithChecksums(a, sizes.0, types.0, now)
                       + (if !again then WithChecksums(b, sizes.1, types.1, now) else [])
                       + WithChecksums(c, sizes.2, types.2, now))
       <==> WithEnding([a, b, c], p)
  {
    hide WithChecksums, Paths, WithEnding;
    var first, third := WithChecksums(a, sizes.0, types.0, now), WithChecksums(c, sizes.2, types.2, now);
    var second := if !again then WithChecksums(b, sizes.1, types.1, now) else [];
    PathsConcat(first + second, third);
    PathsConcat(first, second);
    ChecksumPaths(a, sizes.0, types.0, now, p);
    ChecksumPaths(b, sizes.1, types.1, now, p);
    ChecksumPaths(c, sizes.2, types.2, now, p);
    NoPaths();
    EndingsOfThree(a, b, c, p);
  }

  lemma {:induction false} UploadedPaths(
      groupId: string, artifactId: string, version: string, packaging: string, size: int, now: string, p: string)
    ensures p in Paths(MavenFiles(groupId, artifactId, version, packaging, size, now))
       <==> OfUpload(SlashedDots(groupId) + "/" + artifactId, version, artifactId, packaging, p)
  {
    hide SlashedDots, WithChecksums, Paths, WithEnding;
    var folder := SlashedDots(groupId) + "/" + artifactId;
    var file := folder + "/" + version + "/" + artifactId + "-" + version;
    PathsOfParts(file + "." + packaging, file + ".pom", folder + "/maven-metadata.xml", packaging == "pom",
                 (size, 512, 256), ("application/java-archive", "application/xml", "application/xml"), now, p);
    assert packaging == "pom" ==> file + "." + packaging == file + ".pom";
  }

  lemma {:induction false} NoPaths()
    ensures Paths([]) == []
  {}

  /** What a Maven upload answers and leaves. */
  lemma {:induction false} UploadAnswers(
      s: State, name: string, groupId: string, artifactId: string, version: string, packaging: string, size: int,
      now: string)
    requires Valid(s)
    ensures var (t, reply) := UploadMaven(s, name, MavenFiles(groupId, artifactId, version, packaging, size, now));
            var before, after := s.AssetsOf(name), t.AssetsOf(name);
            var folder := SlashedDots(groupId) + "/" + artifactId;
            match Find(s.repositories, name)
            case None => reply == Missing && t == s
            case Some(repo) =>
              if repo.format != "maven" || repo.kind != "hosted" then reply == Conflict && t == s
              else
                && reply.Uploaded? && t == s.WithAssets(name, after)
                && (forall p :: p in reply.files <==> OfUpload(folder, version, artifactId, packaging, p))
                && (forall p :: p in Paths(after) <==>
                     p in Paths(before) || OfUpload(folder, version, artifactId, packaging, p))
  {
    hide Find, Paths, MavenFiles, OfUpload, SlashedDots, UpsertAll;
    var files := MavenFiles(groupId, artifactId, version, packaging, size, now);
    UpsertAllPaths(s.AssetsOf(name), files);
    forall p ensures p in Paths(files)
      <==> OfUpload(SlashedDots(groupId) + "/" + artifactId, version, artifactId, packaging, p)
    {
      UploadedPaths(groupId, artifactId, version, packaging, size, now, p);
    }
  }
}
