/** Search matches folded into packages, versions and files, in order of relevance. */
module SearchPackages {
  import opened Wrappers
  import opened Text
  import opened Seqs
  import opened SearchVersions
  import opened SearchCoordinates

  // ----- Files -----

  datatype FileType = Jar | War | Ear | Aar | Tgz | Sources | Javadoc | Tests | Pom | Packument | Metadata | Other
    | Checksum
  {
    function Priority(): nat {
      match this
      case Jar => 0
      case War => 1
      case Ear => 1
      case Aar => 1
      case Tgz => 1
      case Sources => 2
      case Javadoc => 3
      case Tests => 4
      case Pom => 5
      case Packument => 5
      case Metadata => 6
      case Other => 7
      case Checksum => 9
    }
  }

  /** The text behind the last occurrence of a character; None without one. */
  function BehindLast(c: char, s: string): Option<string> {
    if s == [] then None
    else if s[|s| - 1] == c then Some("")
    else match BehindLast(c, s[..|s| - 1])
      case None => None
      case Some(t) => Some(t + [s[|s| - 1]])
  }

  function FileName(path: string): string {
    match BehindLast('/', path)
    case Some(name) => name
    case None => path
  }

  function TypeOf(lower: string -> string, path: string, format: string): FileType {
    var name := FileName(path);
    var ext := match BehindLast('.', name) case Some(e) => lower(e) case None => "";
    var folded := lower(name);
    if ext == "jar" then
      if Contains(folded, "-sources") then Sources
      else if Contains(folded, "-javadoc") then Javadoc
      else if Contains(folded, "-tests") then Tests
      else Jar
    else if ext == "war" then War
    else if ext == "ear" then Ear
    else if ext == "aar" then Aar
    else if ext == "tgz" then Tgz
    else if ext == "pom" then Pom
    else if ext == "json" && format == "npm" && |PathSegments(path)| <= 2 then Packument
    else if folded == "maven-metadata.xml" || ext == "module" then Metadata
    else if ext in ["sha1", "md5", "sha256", "sha512", "asc"] then Checksum
    else Other
  }

  datatype File = File(name: string, path: string, repository: string, size: int, sha1: string, updatedAt: string,
                       fileType: FileType)

  function ToFile(lower: string -> string): Match -> File {
    (m: Match) =>
      File(FileName(m.path), m.path, m.repository, m.size, m.sha1, m.updatedAt, TypeOf(lower, m.path, m.format))
  }

  function FileLe(locale: (string, string) -> bool): (File, File) -> bool {
    (a: File, b: File) =>
      || a.fileType.Priority() < b.fileType.Priority()
      || (a.fileType.Priority() == b.fileType.Priority() && locale(a.path, b.path))
  }

  // ----- Versions and packages -----

  datatype Version = Version(version: string, precision: Precision, fileCount: nat, size: int, latest: string,
                             files: seq<File>)

  datatype Package = Package(coordinate: string, kind: Kind, repositories: seq<string>, versionCount: nat,
                             fileCount: nat, best: Precision, latest: string, top: string,
                             versions: seq<Version>, files: seq<File>)

  /** What a search is given besides its matches: case folding, the order of a locale, and the terms. */
  datatype Setting = Setting(lower: string -> string, locale: (string, string) -> bool, terms: seq<string>)
  {
    ghost predicate Valid() { lower("") == "" && Total(locale) && Transitive(locale) }

    function FoldedVersion(): Match -> string { (m: Match) => lower(Parse(m).version) }
  }

  function SizeOf(m: Match): int { m.size }

  function TimeOf(m: Match): string { m.updatedAt }

  /** The last of the times in text order. */
  ghost predicate IsLatest(latest: string, times: seq<string>) {
    if times == [] then latest == "" else latest in times && forall t :: t in times ==> AtOrBefore(t, latest)
  }

  lemma {:induction false} LatestStep(latest: string, times: seq<string>, t: string)
    requires IsLatest(latest, times)
    ensures IsLatest(if Before(latest, t) then t else latest, times + [t])
  {
    TextOrderIsTotal();
    BeforeIsStrict(latest, t);
    assert times == [] ==> (Before("", t) || t == "");
    forall u | u in times ensures AtOrBefore(u, if Before(latest, t) then t else latest) {
      if Before(latest, t) {
        BeforeIsStrict(latest, t);
        AtOrBeforeIsTransitive(u, latest, t);
      }
    }
  }

  lemma {:induction false} LatestIsUnique(a: string, b: string, s: seq<string>, t: seq<string>)
    requires IsLatest(a, s) && IsLatest(b, t) && forall x :: x in s <==> x in t
    ensures a == b
  {
    assert |s| > 0 ==> s[0] in s;
    assert |t| > 0 ==> t[0] in t;
    if s != [] && t != [] {
      BeforeIsStrict(a, b);
    }
  }

  /** What a version says of its members, apart from listing their files. */
  ghost predicate IsTally(v: Version, st: Setting, members: seq<Match>) {
    && members != [] && v.version == Parse(members[0]).version
    && IsPrecision(v.precision, st.lower, v.version, st.terms)
    && v.fileCount == |members| && v.size == Sum(Map(SizeOf, members))
    && IsLatest(v.latest, Map(TimeOf, members))
  }

  /** A version holds the files of its members, not yet sorted. */
  ghost predicate IsDraft(v: Version, st: Setting, members: seq<Match>) {
    IsTally(v, st, members) && v.files == Map(ToFile(st.lower), members)
  }

  /** One version for each folded version of the members, holding exactly those members. */
  ghost predicate AreDrafts(versions: seq<Version>, st: Setting, members: seq<Match>) {
    && Distinct(versions)
    && (forall v, w :: v in versions && w in versions && st.lower(v.version) == st.lower(w.version) ==> v == w)
    && (forall m :: m in members ==> exists v :: v in versions && st.lower(v.version) == st.FoldedVersion()(m))
    && forall v :: v in versions ==> IsDraft(v, st, Bucket(st.FoldedVersion(), st.lower(v.version), members))
  }

  /** The counters of a package over its members. */
  ghost predicate Counts(p: Package, members: seq<Match>) {
    && p.fileCount == |members| && IsLatest(p.latest, Map(TimeOf, members))
    && Distinct(p.repositories) && forall r :: r in p.repositories <==> exists m :: m in members && m.repository == r
  }

  /** A package before its lists are sorted. */
  ghost predicate IsPackageDraft(p: Package, st: Setting, members: seq<Match>) {
    && Counts(p, members)
    && (forall m :: m in members ==> Parse(m).kind == p.kind && Parse(m).coordinate == p.coordinate)
    && if p.kind.FileKind? then p.versions == [] && p.files == Map(ToFile(st.lower), members)
       else p.files == [] && AreDrafts(p.versions, st, members)
  }

  // ----- Adding a match -----

  function IndexOfVersion(versions: seq<Version>, lower: string -> string, key: string): (i: nat)
    ensures i <= |versions| && (i < |versions| ==> lower(versions[i].version) == key)
    ensures forall j :: 0 <= j < i ==> lower(versions[j].version) != key
  {
    if versions == [] || lower(versions[0].version) == key then 0 else 1 + IndexOfVersion(versions[1..], lower, key)
  }

  function Extended(v: Version, f: File): Version {
    v.(files := v.files + [f], fileCount := v.fileCount + 1, size := v.size + f.size,
       latest := if Before(v.latest, f.updatedAt) then f.updatedAt else v.latest)
  }

  lemma {:induction false} ExtendedDraft(v: Version, st: Setting, members: seq<Match>, m: Match)
    requires IsDraft(v, st, members)
    ensures IsDraft(Extended(v, ToFile(st.lower)(m)), st, members + [m])
  {
    hide IsLatest, Sum, IsPrecision, TypeOf, FileName, Parse;
    MapSnoc(SizeOf, members, m);
    MapSnoc(TimeOf, members, m);
    MapSnoc(ToFile(st.lower), members, m);
    SumSnoc(Map(SizeOf, members), m.size);
    LatestStep(v.latest, Map(TimeOf, members), m.updatedAt);
  }

  lemma {:induction false} FirstDraft(v: Version, st: Setting, m: Match)
    requires IsPrecision(v.precision, st.lower, v.version, st.terms)
    requires v == Version(Parse(m).version, v.precision, 0, 0, "", [])
    ensures IsDraft(Extended(v, ToFile(st.lower)(m)), st, [m])
  {
    hide IsPrecision, TypeOf, FileName, Parse;
    LatestStep("", [], m.updatedAt);
    SumSnoc([], m.size);
    assert [] + [m.size] == [m.size] == Map(SizeOf, [m]) && [] + [m.updatedAt] == [m.updatedAt] == Map(TimeOf, [m]);
    assert [] + [ToFile(st.lower)(m)] == [ToFile(st.lower)(m)] == Map(ToFile(st.lower), [m]);
  }

  /** Adds a file to the version with the same folded text, or opens one. */
  method AddToVersions(
      versions: seq<Version>, st: Setting, m: Match, ghost members: seq<Match>) returns (r: seq<Version>)
    requires AreDrafts(versions, st, members)
    ensures AreDrafts(r, st, members + [m])
  {
    hide AreDrafts, IsDraft, IndexOfVersion, Extended, Parse, IsPrecision;
    var file, version := ToFile(st.lower)(m), Parse(m).version;
    var key := st.lower(version);
    var i := IndexOfVersion(versions, st.lower, key);
    if i < |versions| {
      ExtendsVersion(versions, st, members, m, i);
      r := versions[i := Extended(versions[i], file)];
    } else {
      var precision := MatchPrecision(st.lower, version, st.terms);
      var opening := Version(version, precision, 0, 0, "", []);
      OpensVersion(versions, st, members, m, opening);
      r := versions + [Extended(opening, file)];
    }
  }

  lemma {:induction false} ExtendsVersion(versions: seq<Version>, st: Setting, members: seq<Match>, m: Match, i: nat)
    requires AreDrafts(versions, st, members) && i < |versions|
    requires st.lower(versions[i].version) == st.lower(Parse(m).version)
    ensures AreDrafts(versions[i := Extended(versions[i], ToFile(st.lower)(m))], st, members + [m])
  {
    hide IsDraft, Parse, TypeOf, FileName, Bucket;
    var fold, v := st.FoldedVersion(), versions[i];
    var v' := Extended(v, ToFile(st.lower)(m));
    var r := versions[i := v'];
    assert v in versions;
    assert forall w :: w in r ==> w == v' || (w in versions && w != v) by {
      forall w | w in r ensures w == v' || (w in versions && w != v) {
        var j :| 0 <= j < |r| && r[j] == w;
        assert j != i ==> versions[j] != versions[i];
      }
    }
    assert r[i] == v' && forall w :: w in versions && w != v ==> w in r by {
      forall w | w in versions && w != v ensures w in r {
        var j :| 0 <= j < |versions| && versions[j] == w;
        assert r[j] == w;
      }
    }
    BucketStep(fold, st.lower(v.version), members, m);
    ExtendedDraft(v, st, Bucket(fold, st.lower(v.version), members), m);
    forall w | w in versions && w != v ensures st.lower(w.version) != fold(m) {}
    forall w | w in versions && w != v ensures IsDraft(w, st, Bucket(fold, st.lower(w.version), members + [m])) {
      BucketStep(fold, st.lower(w.version), members, m);
    }
    DistinctUpdate(versions, i, v');
    forall n | n in members + [m] ensures exists w :: w in r && st.lower(w.version) == fold(n) {
      if n in members {
        var w :| w in versions && st.lower(w.version) == fold(n);
        assert (if w == v then v' else w) in r;
      } else {
        assert v' in r;
      }
    }
  }

  lemma {:induction false} DistinctUpdate<T>(s: seq<T>, i: nat, x: T)
    requires i < |s| && Distinct(s) && (x !in s || x == s[i])
    ensures Distinct(s[i := x])
  {}

  lemma {:induction false} OpensVersion(
      versions: seq<Version>, st: Setting, members: seq<Match>, m: Match, opening: Version)
    requires AreDrafts(versions, st, members)
    requires forall v :: v in versions ==> st.lower(v.version) != st.lower(Parse(m).version)
    requires opening == Version(Parse(m).version, opening.precision, 0, 0, "", [])
    requires IsPrecision(opening.precision, st.lower, opening.version, st.terms)
    ensures AreDrafts(versions + [Extended(opening, ToFile(st.lower)(m))], st, members + [m])
  {
    hide IsDraft, Parse, TypeOf, FileName, Bucket, IsPrecision;
    var fold := st.FoldedVersion();
    var v' := Extended(opening, ToFile(st.lower)(m));
    var r := versions + [v'];
    assert forall n :: n in members ==> fold(n) != fold(m);
    EmptyBucket(fold, fold(m), members);
    BucketStep(fold, fold(m), members, m);
    FirstDraft(opening, st, m);
    assert [] + [m] == [m];
    forall w | w in versions ensures IsDraft(w, st, Bucket(fold, st.lower(w.version), members + [m])) {
      BucketStep(fold, st.lower(w.version), members, m);
    }
    forall n | n in members + [m] ensures exists w :: w in r && st.lower(w.version) == fold(n) {
      if n in members {
        var w :| w in versions && st.lower(w.version) == fold(n);
        assert w in r;
      } else {
        assert v' in r;
      }
    }
  }

  // ----- Adding a match to its package -----

  function EmptyPackage(c: Coordinates): Package { Package(c.coordinate, c.kind, [], 0, 0, NoMatch, "", "", [], []) }

  method AddToPackage(p: Package, st: Setting, m: Match, ghost members: seq<Match>) returns (r: Package)
    requires IsPackageDraft(p, st, members) && Parse(m).kind == p.kind && Parse(m).coordinate == p.coordinate
    ensures IsPackageDraft(r, st, members + [m]) && r.kind == p.kind && r.coordinate == p.coordinate
  {
    hide Parse, AreDrafts, Counts, TypeOf, FileName;
    var repositories := p.repositories;
    if m.repository !in repositories {
      repositories := repositories + [m.repository];
    }
    var latest := p.latest;
    if Before(latest, m.updatedAt) {
      latest := m.updatedAt;
    }
    CountsStep(p, members, m, repositories, latest);
    r := p.(repositories := repositories, fileCount := p.fileCount + 1, latest := latest);
    if p.kind.FileKind? {
      MapSnoc(ToFile(st.lower), members, m);
      r := r.(files := p.files + [ToFile(st.lower)(m)]);
    } else {
      var versions := AddToVersions(p.versions, st, m, members);
      r := r.(versions := versions);
    }
    SameCounts(p.(repositories := repositories, fileCount := p.fileCount + 1, latest := latest), r, members + [m]);
  }

  lemma {:induction false} SameCounts(p: Package, q: Package, members: seq<Match>)
    requires Counts(p, members) && p.repositories == q.repositories && p.fileCount == q.fileCount
    requires p.latest == q.latest
    ensures Counts(q, members)
  {}

  lemma {:induction false} CountsStep(
      p: Package, members: seq<Match>, m: Match, repositories: seq<string>, latest: string)
    requires Counts(p, members)
    requires repositories == p.repositories + (if m.repository in p.repositories then [] else [m.repository])
    requires latest == if Before(p.latest, m.updatedAt) then m.updatedAt else p.latest
    ensures Counts(p.(repositories := repositories, fileCount := p.fileCount + 1, latest := latest), members + [m])
  {
    hide IsLatest;
    MapSnoc(TimeOf, members, m);
    LatestStep(p.latest, Map(TimeOf, members), m.updatedAt);
    assert forall n :: n in members + [m] <==> n in members || n == m;
    assert forall r :: r in repositories <==> r in p.repositories || r == m.repository;
  }

  lemma {:induction false} EmptyDraft(c: Coordinates, st: Setting)
    ensures IsPackageDraft(EmptyPackage(c), st, [])
  {
    assert Map(ToFile(st.lower), []) == [];
    assert Map(TimeOf, []) == [];
  }

  // ----- Grouping all matches -----

  /** Under each key that occurs, the draft of the package of its matches; keys in order of first occurrence. */
  ghost predicate AreGrouped(groups: map<string, Package>, keys: seq<string>, st: Setting, matches: seq<Match>) {
    && Distinct(keys) && (forall k :: k in keys <==> k in groups)
    && (forall m :: m in matches ==> KeyOf(m) in groups)
    && forall k :: k in groups ==> IsGroup(groups[k], k, st, matches)
  }

  ghost predicate IsGroup(p: Package, k: string, st: Setting, matches: seq<Match>) {
    && PackageKey(Coordinates(p.kind, p.coordinate, "")) == k
    && Bucket(KeyOf, k, matches) != [] && IsPackageDraft(p, st, Bucket(KeyOf, k, matches))
  }

  method GroupMatches(st: Setting, matches: seq<Match>) returns (groups: map<string, Package>, keys: seq<string>)
    ensures AreGrouped(groups, keys, st, matches)
  {
    hide AreGrouped, IsGroup, Parse, PackageKey, IsPackageDraft;
    groups, keys := map[], [];
    NothingGrouped(st);
    assert matches[..0] == [];
    for i := 0 to |matches|
      invariant AreGrouped(groups, keys, st, matches[..i])
    {
      var m := matches[i];
      assert matches[..i + 1] == matches[..i] + [m];
      var c := Parse(m);
      var key := PackageKey(c);
      var p := if key in groups then groups[key] else EmptyPackage(c);
      PackageOfMatch(groups, keys, st, matches[..i], m, p);
      var members := Bucket(KeyOf, key, matches[..i]);
      var r := AddToPackage(p, st, m, members);
      GroupStep(groups, keys, st, matches[..i], m, r);
      if key !in groups {
        keys := keys + [key];
      }
      groups := groups[key := r];
    }
    assert matches[..|matches|] == matches;
  }

  lemma {:induction false} NothingGrouped(st: Setting)
    ensures AreGrouped(map[], [], st, [])
  {}

  lemma {:induction false} PackageOfMatch(
      groups: map<string, Package>, keys: seq<string>, st: Setting, matches: seq<Match>, m: Match, p: Package)
    requires AreGrouped(groups, keys, st, matches)
    requires p == if KeyOf(m) in groups then groups[KeyOf(m)] else EmptyPackage(Parse(m))
    ensures IsPackageDraft(p, st, Bucket(KeyOf, KeyOf(m), matches))
    ensures Parse(m).kind == p.kind && Parse(m).coordinate == p.coordinate
    ensures PackageKey(Parse(m)) == KeyOf(m)
  {
    hide Parse, IsPackageDraft, PackageKey;
    if KeyOf(m) in groups {
      assert IsGroup(p, KeyOf(m), st, matches);
      PackageKeyIsInjective(Coordinates(p.kind, p.coordinate, ""), Parse(m));
    } else {
      EmptyBucket(KeyOf, KeyOf(m), matches);
      EmptyDraft(Parse(m), st);
    }
  }

  lemma {:induction false} GroupStep(
      groups: map<string, Package>, keys: seq<string>, st: Setting, matches: seq<Match>, m: Match, r: Package)
    requires AreGrouped(groups, keys, st, matches)
    requires IsPackageDraft(r, st, Bucket(KeyOf, KeyOf(m), matches) + [m])
    requires r.kind == Parse(m).kind && r.coordinate == Parse(m).coordinate
    ensures AreGrouped(groups[KeyOf(m) := r], if KeyOf(m) in groups then keys else keys + [KeyOf(m)], st, matches + [m])
  {
    hide IsGroup, KeyOf;
    var k := KeyOf(m);
    var groups' := groups[k := r];
    forall j | j in groups' ensures IsGroup(groups'[j], j, st, matches + [m]) {
      if j == k {
        GrownGroup(r, st, matches, m);
      } else {
        OtherGroup(groups[j], j, st, matches, m);
      }
    }
  }

  lemma {:induction false} GrownGroup(r: Package, st: Setting, matches: seq<Match>, m: Match)
    requires IsPackageDraft(r, st, Bucket(KeyOf, KeyOf(m), matches) + [m])
    requires r.kind == Parse(m).kind && r.coordinate == Parse(m).coordinate
    ensures IsGroup(r, KeyOf(m), st, matches + [m])
  {
    hide Parse, IsPackageDraft, PackageKey, Bucket;
    BucketStep(KeyOf, KeyOf(m), matches, m);
    PackageKeyIsInjective(Coordinates(r.kind, r.coordinate, ""), Parse(m));
  }

  lemma {:induction false} OtherGroup(p: Package, k: string, st: Setting, matches: seq<Match>, m: Match)
    requires IsGroup(p, k, st, matches) && KeyOf(m) != k
    ensures IsGroup(p, k, st, matches + [m])
  {
    hide KeyOf, IsPackageDraft, PackageKey, Bucket;
    BucketStep(KeyOf, k, matches, m);
  }

  // ----- Orders -----

  function VersionLe(st: Setting): (Version, Version) -> bool {
    (a: Version, b: Version) =>
      if a.precision != b.precision then a.precision.Rank() < b.precision.Rank()
      else if CompareVectorDesc(a.version, b.version) != 0 then CompareVectorDesc(a.version, b.version) < 0
      else st.locale(a.version, b.version)
  }

  /** Relevance: precision, then version vector unless nothing matches, then the later time, then the coordinate. */
  function PackageLe(st: Setting): (Package, Package) -> bool {
    (a: Package, b: Package) =>
      if a.best != b.best then a.best.Rank() < b.best.Rank()
      else if a.best.Rank() < 3 && CompareVectorDesc(a.top, b.top) != 0 then CompareVectorDesc(a.top, b.top) < 0
      else if a.latest != b.latest then !Before(a.latest, b.latest)
      else st.locale(a.coordinate, b.coordinate)
  }

  lemma {:induction false} VectorSteps(a: string, b: string, c: string)
    ensures CompareVectorDesc(a, b) < 0 <==> CompareVectorDesc(b, a) > 0
    ensures CompareVectorDesc(a, b) > 0 <==> CompareVectorDesc(b, a) < 0
    ensures CompareVectorDesc(a, b) <= 0 && CompareVectorDesc(b, c) <= 0 ==> CompareVectorDesc(a, c) <= 0
    ensures CompareVectorDesc(a, b) <= 0 && CompareVectorDesc(b, c) <= 0 && CompareVectorDesc(a, c) == 0 ==>
      CompareVectorDesc(a, b) == 0 && CompareVectorDesc(b, c) == 0
  {
    hide CompareVectorDesc;
    VectorOrderIsTotal();
    if VectorLe(a, b) && VectorLe(b, c) {
      VectorLeIsTransitive(a, b, c);
      if VectorLe(c, a) {
        VectorLeIsTransitive(c, a, b);
        VectorLeIsTransitive(b, c, a);
      }
    }
  }

  /** The relevance of versions and packages and the order of files are total preorders. */
  lemma {:induction false} OrdersAreTotal(st: Setting)
    requires st.Valid()
    ensures Total(FileLe(st.locale)) && Transitive(FileLe(st.locale))
    ensures Total(VersionLe(st)) && Transitive(VersionLe(st))
    ensures Total(PackageLe(st)) && Transitive(PackageLe(st))
  {
    hide CompareVectorDesc, FileType.Priority;
    FileOrderIsTotal(st);
    VersionOrderIsTotal(st);
    PackageOrderIsTotal(st);
  }

  lemma {:induction false} FileOrderIsTotal(st: Setting)
    requires st.Valid()
    ensures Total(FileLe(st.locale)) && Transitive(FileLe(st.locale))
  {
    hide FileType.Priority;
    var le := FileLe(st.locale);
    forall a, b ensures le(a, b) || le(b, a) {
      assert st.locale(a.path, b.path) || st.locale(b.path, a.path);
    }
    forall a, b, c | le(a, b) && le(b, c) ensures le(a, c) {
      assert st.locale(a.path, b.path) && st.locale(b.path, c.path) ==> st.locale(a.path, c.path);
    }
  }

  lemma {:induction false} VersionOrderIsTotal(st: Setting)
    requires st.Valid()
    ensures Total(VersionLe(st)) && Transitive(VersionLe(st))
  {
    hide CompareVectorDesc;
    var le := VersionLe(st);
    forall a, b ensures le(a, b) || le(b, a) {
      VectorSteps(a.version, b.version, a.version);
      assert st.locale(a.version, b.version) || st.locale(b.version, a.version);
    }
    forall a, b, c | le(a, b) && le(b, c) ensures le(a, c) {
      VectorSteps(a.version, b.version, c.version);
    }
  }

  lemma {:induction false} PackageOrderIsTotal(st: Setting)
    requires st.Valid()
    ensures Total(PackageLe(st)) && Transitive(PackageLe(st))
  {
    hide CompareVectorDesc, Before;
    var le := PackageLe(st);
    forall a, b ensures le(a, b) || le(b, a) {
      VectorSteps(a.top, b.top, a.top);
      BeforeIsStrict(a.latest, b.latest);
      assert st.locale(a.coordinate, b.coordinate) || st.locale(b.coordinate, a.coordinate);
    }
    forall a, b, c | le(a, b) && le(b, c) ensures le(a, c) {
      PackageLeIsTransitive(st, a, b, c);
    }
  }

  lemma {:induction false} PackageLeIsTransitive(st: Setting, a: Package, b: Package, c: Package)
    requires st.Valid() && PackageLe(st)(a, b) && PackageLe(st)(b, c)
    ensures PackageLe(st)(a, c)
  {
    hide CompareVectorDesc, Before;
    VectorSteps(a.top, b.top, c.top);
    if !Before(a.latest, b.latest) && !Before(b.latest, c.latest) {
      AtOrBeforeIsTransitive(c.latest, b.latest, a.latest);
      BeforeIsStrict(a.latest, b.latest);
      BeforeIsStrict(b.latest, c.latest);
      BeforeIsStrict(a.latest, c.latest);
    }
  }

  // ----- Finishing a package -----

  /** A version holds the files of its members, sorted. */
  ghost predicate IsVersion(v: Version, st: Setting, members: seq<Match>) {
    IsTally(v, st, members) && v.files == SortBy(FileLe(st.locale), Map(ToFile(st.lower), members))
  }

  ghost predicate AreVersions(versions: seq<Version>, st: Setting, members: seq<Match>) {
    && Distinct(versions)
    && (forall v, w :: v in versions && w in versions && st.lower(v.version) == st.lower(w.version) ==> v == w)
    && (forall m :: m in members ==> exists v :: v in versions && st.lower(v.version) == st.FoldedVersion()(m))
    && forall v :: v in versions ==> IsVersion(v, st, Bucket(st.FoldedVersion(), st.lower(v.version), members))
  }

  ghost predicate IsBest(best: Precision, versions: seq<Version>) {
    && (forall v :: v in versions ==> best.Rank() <= v.precision.Rank())
    && (best == NoMatch || exists v :: v in versions && v.precision == best)
  }

  /** A finished package of the members. */
  ghost predicate IsPackage(p: Package, st: Setting, members: seq<Match>) {
    && Counts(p, members)
    && (forall m :: m in members ==> Parse(m).kind == p.kind && Parse(m).coordinate == p.coordinate)
    && p.versionCount == |p.versions| && Sorted(VersionLe(st), p.versions) && IsBest(p.best, p.versions)
    && p.top == (if p.versions == [] then "" else p.versions[0].version)
    && if p.kind.FileKind? then p.versions == [] && p.files == SortBy(FileLe(st.locale), Map(ToFile(st.lower), members))
       else p.files == [] && AreVersions(p.versions, st, members)
  }

  method BestPrecision(versions: seq<Version>) returns (best: Precision)
    ensures IsBest(best, versions)
  {
    best := NoMatch;
    for i := 0 to |versions|
      invariant IsBest(best, versions[..i])
    {
      assert versions[..i + 1] == versions[..i] + [versions[i]];
      if versions[i].precision.Rank() < best.Rank() {
        best := versions[i].precision;
      }
    }
    assert versions[..|versions|] == versions;
  }

  function SortedFiles(st: Setting): Version -> Version {
    (v: Version) => v.(files := SortBy(FileLe(st.locale), v.files))
  }

  method FinishVersions(st: Setting, versions: seq<Version>, ghost members: seq<Match>) returns (r: seq<Version>)
    requires st.Valid() && AreDrafts(versions, st, members)
    ensures AreVersions(r, st, members) && Sorted(VersionLe(st), r)
  {
    hide *;
    var sorted := SortBy(VersionLe(st), versions);
    r := [];
    for i := 0 to |sorted|
      invariant r == Map(SortedFiles(st), sorted[..i])
    {
      assert sorted[..i + 1] == sorted[..i] + [sorted[i]];
      MapSnoc(SortedFiles(st), sorted[..i], sorted[i]);
      r := r + [SortedFiles(st)(sorted[i])];
    }
    assert sorted[..|sorted|] == sorted;
    FinishedVersions(st, versions, members);
  }

  lemma {:induction false} FinishedVersions(st: Setting, versions: seq<Version>, members: seq<Match>)
    requires st.Valid() && AreDrafts(versions, st, members)
    ensures var r := Map(SortedFiles(st), SortBy(VersionLe(st), versions));
            AreVersions(r, st, members) && Sorted(VersionLe(st), r)
  {
    hide *;
    var sorted := SortBy(VersionLe(st), versions);
    SortPermutes(VersionLe(st), versions);
    OrdersAreTotal(st);
    SortSorts(VersionLe(st), versions);
    StillDrafts(versions, sorted, st, members);
    DraftsFinish(sorted, st, members);
    StillSorted(sorted, st);
  }

  lemma {:induction false} StillDrafts(versions: seq<Version>, sorted: seq<Version>, st: Setting, members: seq<Match>)
    requires AreDrafts(versions, st, members) && multiset(versions) == multiset(sorted)
    requires forall v :: v in sorted <==> v in versions
    ensures AreDrafts(sorted, st, members)
  {
    hide IsDraft, Bucket, Setting.FoldedVersion, Distinct;
    DistinctPermutes(versions, sorted);
  }

  lemma {:induction false} StillSorted(sorted: seq<Version>, st: Setting)
    requires Sorted(VersionLe(st), sorted)
    ensures Sorted(VersionLe(st), Map(SortedFiles(st), sorted))
  {
    hide CompareVectorDesc, SortBy;
    var r := Map(SortedFiles(st), sorted);
    forall i, j | 0 <= i < j < |r| ensures VersionLe(st)(r[i], r[j]) {
      assert VersionLe(st)(sorted[i], sorted[j]);
    }
  }

  lemma {:induction false} DraftsFinish(sorted: seq<Version>, st: Setting, members: seq<Match>)
    requires AreDrafts(sorted, st, members)
    ensures AreVersions(Map(SortedFiles(st), sorted), st, members)
  {
    hide SortBy, IsTally, Bucket, Setting.FoldedVersion;
    var r := Map(SortedFiles(st), sorted);
    forall v | v in r ensures IsVersion(v, st, Bucket(st.FoldedVersion(), st.lower(v.version), members)) {
      var i :| 0 <= i < |r| && r[i] == v;
      DraftFinishes(sorted[i], st, Bucket(st.FoldedVersion(), st.lower(v.version), members));
    }
    FoldsDiffer(st, sorted, sorted, r);
    forall m | m in members ensures exists v :: v in r && st.lower(v.version) == st.FoldedVersion()(m) {
      var v :| v in sorted && st.lower(v.version) == st.FoldedVersion()(m);
      var i :| 0 <= i < |sorted| && sorted[i] == v;
      assert r[i] in r;
    }
  }

  lemma {:induction false} DraftFinishes(v: Version, st: Setting, members: seq<Match>)
    requires IsDraft(v, st, members)
    ensures IsVersion(SortedFiles(st)(v), st, members)
  {
    hide SortBy;
    TallyIgnoresFiles(v, SortedFiles(st)(v), st, members);
  }

  lemma {:induction false} TallyIgnoresFiles(v: Version, w: Version, st: Setting, members: seq<Match>)
    requires IsTally(v, st, members) && w == v.(files := w.files)
    ensures IsTally(w, st, members)
  {}

  lemma {:induction false} FoldsDiffer(st: Setting, versions: seq<Version>, sorted: seq<Version>, r: seq<Version>)
    requires |r| == |sorted| && Distinct(sorted)
    requires forall i :: 0 <= i < |r| ==> sorted[i] in versions && r[i].version == sorted[i].version
    requires forall v, w :: v in versions && w in versions && st.lower(v.version) == st.lower(w.version) ==> v == w
    ensures Distinct(r)
    ensures forall v, w :: v in r && w in r && st.lower(v.version) == st.lower(w.version) ==> v == w
  {
    forall i, j | 0 <= i < j < |r| ensures st.lower(r[i].version) != st.lower(r[j].version) {
      assert sorted[i] != sorted[j];
    }
  }

  method Finish(p: Package, st: Setting, ghost members: seq<Match>) returns (r: Package)
    requires st.Valid() && IsPackageDraft(p, st, members)
    ensures IsPackage(r, st, members) && r.kind == p.kind && r.coordinate == p.coordinate
  {
    hide Parse, AreDrafts, AreVersions, Counts, TypeOf, FileName, SortBy, Setting.Valid, IsBest, CompareVectorDesc;
    var versions := p.versions;
    if !p.kind.FileKind? {
      versions := FinishVersions(st, p.versions, members);
    }
    var files := SortBy(FileLe(st.locale), p.files);
    EmptySort(FileLe(st.locale));
    var best := BestPrecision(versions);
    r := p.(versions := versions, files := files, versionCount := |versions|, best := best,
            top := if versions == [] then "" else versions[0].version);
    SameCounts(p, r, members);
  }

  lemma {:induction false} EmptySort<T>(le: (T, T) -> bool)
    ensures SortBy(le, []) == []
  {}

  // ----- The whole search -----

  function KeyOfPackage(p: Package): string { PackageKey(Coordinates(p.kind, p.coordinate, "")) }

  /** One finished package for each key that occurs, of exactly the matches with that key. */
  ghost predicate ArePackages(packages: seq<Package>, st: Setting, matches: seq<Match>) {
    && Distinct(packages)
    && (forall p, q :: p in packages && q in packages && KeyOfPackage(p) == KeyOfPackage(q) ==> p == q)
    && (forall m :: m in matches ==> exists p :: p in packages && KeyOfPackage(p) == KeyOf(m))
    && forall p :: p in packages ==>
         var members := Bucket(KeyOf, KeyOfPackage(p), matches); members != [] && IsPackage(p, st, members)
  }

  /** The packages of the matches, most relevant first. */
  method BuildSearchPackages(st: Setting, matches: seq<Match>) returns (packages: seq<Package>)
    requires st.Valid()
    ensures ArePackages(packages, st, matches) && Sorted(PackageLe(st), packages)
  {
    hide *;
    var groups, keys := GroupMatches(st, matches);
    packages := [];
    NoneFinished(st, matches);
    assert keys[..0] == [];
    for i := 0 to |keys|
      invariant AreFinished(packages, keys[..i], st, matches)
    {
      assert keys[..i + 1] == keys[..i] + [keys[i]];
      GroupAt(groups, keys, st, matches, i);
      var p := Finish(groups[keys[i]], st, Bucket(KeyOf, keys[i], matches));
      OneFinished(packages, keys[..i], st, matches, keys[i], groups[keys[i]], p);
      packages := packages + [p];
    }
    assert keys[..|keys|] == keys;
    AllFinished(packages, groups, keys, st, matches);
    packages := SortBy(PackageLe(st), packages);
  }

  ghost predicate AreFinished(packages: seq<Package>, keys: seq<string>, st: Setting, matches: seq<Match>) {
    |packages| == |keys| && forall i :: 0 <= i < |keys| ==>
      var members := Bucket(KeyOf, keys[i], matches);
      KeyOfPackage(packages[i]) == keys[i] && members != [] && IsPackage(packages[i], st, members)
  }

  lemma {:induction false} NoneFinished(st: Setting, matches: seq<Match>)
    ensures AreFinished([], [], st, matches)
  {}

  lemma {:induction false} GroupAt(
      groups: map<string, Package>, keys: seq<string>, st: Setting, matches: seq<Match>, i: nat)
    requires AreGrouped(groups, keys, st, matches) && i < |keys|
    ensures keys[i] in groups && IsGroup(groups[keys[i]], keys[i], st, matches)
    ensures IsPackageDraft(groups[keys[i]], st, Bucket(KeyOf, keys[i], matches))
  {
    hide IsPackageDraft, Bucket;
    assert keys[i] in keys;
  }

  lemma {:induction false} OneFinished(
      packages: seq<Package>, keys: seq<string>, st: Setting, matches: seq<Match>, k: string, draft: Package,
      p: Package)
    requires AreFinished(packages, keys, st, matches) && IsGroup(draft, k, st, matches)
    requires IsPackage(p, st, Bucket(KeyOf, k, matches)) && p.kind == draft.kind && p.coordinate == draft.coordinate
    ensures AreFinished(packages + [p], keys + [k], st, matches)
  {
    hide IsPackage, IsPackageDraft, PackageKey, Bucket;
  }

  lemma {:induction false} AllFinished(
      packages: seq<Package>, groups: map<string, Package>, keys: seq<string>, st: Setting, matches: seq<Match>)
    requires st.Valid() && AreFinished(packages, keys, st, matches) && AreGrouped(groups, keys, st, matches)
    ensures ArePackages(SortBy(PackageLe(st), packages), st, matches)
    ensures Sorted(PackageLe(st), SortBy(PackageLe(st), packages))
  {
    hide *;
    OrdersAreTotal(st);
    SortSorts(PackageLe(st), packages);
    SortPermutes(PackageLe(st), packages);
    KeysAreGrouped(groups, keys, st, matches);
    FinishedArePackages(packages, keys, st, matches);
    StillPackages(packages, SortBy(PackageLe(st), packages), st, matches);
  }

  lemma {:induction false} KeysAreGrouped(
      groups: map<string, Package>, keys: seq<string>, st: Setting, matches: seq<Match>)
    requires AreGrouped(groups, keys, st, matches)
    ensures Distinct(keys) && forall m :: m in matches ==> KeyOf(m) in keys
  {
    hide IsGroup, KeyOf;
  }

  lemma {:induction false} FinishedArePackages(
      packages: seq<Package>, keys: seq<string>, st: Setting, matches: seq<Match>)
    requires AreFinished(packages, keys, st, matches) && Distinct(keys) && forall m :: m in matches ==> KeyOf(m) in keys
    ensures ArePackages(packages, st, matches)
  {
    hide IsPackage, KeyOfPackage, KeyOf, Bucket;
    forall i, j | 0 <= i < j < |packages| ensures KeyOfPackage(packages[i]) != KeyOfPackage(packages[j]) {
      assert keys[i] != keys[j];
    }
    forall m | m in matches ensures exists p :: p in packages && KeyOfPackage(p) == KeyOf(m) {
      var i :| 0 <= i < |keys| && keys[i] == KeyOf(m);
      assert packages[i] in packages;
    }
  }

  lemma {:induction false} StillPackages(packages: seq<Package>, sorted: seq<Package>, st: Setting, matches: seq<Match>)
    requires ArePackages(packages, st, matches) && multiset(sorted) == multiset(packages)
    requires forall p :: p in sorted <==> p in packages
    ensures ArePackages(sorted, st, matches)
  {
    hide IsPackage, KeyOfPackage, KeyOf, Bucket, Distinct;
    DistinctPermutes(packages, sorted);
  }

  // ----- What the packages say of the matches -----

  function FilesIn(p: Package): int { p.fileCount }

  function FilesInVersion(v: Version): int { v.fileCount }

  /** The file counts of all packages add up to the number of matches. */
  lemma {:induction false} FileCountsSumToMatches(packages: seq<Package>, st: Setting, matches: seq<Match>)
    requires ArePackages(packages, st, matches)
    ensures Sum(Map(FilesIn, packages)) == |matches|
  {
    hide KeyOfPackage, KeyOf, Bucket, Parse, AreVersions, TypeOf, Sorted, IsBest;
    var keys := Map(KeyOfPackage, packages);
    forall i, j | 0 <= i < j < |keys| ensures keys[i] != keys[j] {
      assert packages[i] != packages[j];
    }
    forall m | m in matches ensures KeyOf(m) in keys {
      var p :| p in packages && KeyOfPackage(p) == KeyOf(m);
      var i :| 0 <= i < |packages| && packages[i] == p;
      assert keys[i] == KeyOf(m);
    }
    assert forall i :: 0 <= i < |packages| ==> packages[i] in packages;
    BucketSizesSum(KeyOf, keys, matches, Map(FilesIn, packages));
  }

  /** The file counts of a package's versions add up to its own. */
  lemma {:induction false} VersionCountsSumToPackage(p: Package, st: Setting, members: seq<Match>)
    requires IsPackage(p, st, members) && !p.kind.FileKind?
    ensures Sum(Map(FilesInVersion, p.versions)) == p.fileCount
  {
    hide Bucket, Setting.FoldedVersion, Parse, TypeOf, Sorted, IsBest, IsPrecision, IsLatest, SortBy, Sum;
    var fold := st.FoldedVersion();
    var keys := seq(|p.versions|, i requires 0 <= i < |p.versions| => st.lower(p.versions[i].version));
    forall i, j | 0 <= i < j < |keys| ensures keys[i] != keys[j] {
      assert p.versions[i] in p.versions && p.versions[j] in p.versions && p.versions[i] != p.versions[j];
    }
    forall m | m in members ensures fold(m) in keys {
      var v :| v in p.versions && st.lower(v.version) == fold(m);
      var i :| 0 <= i < |p.versions| && p.versions[i] == v;
      assert keys[i] == fold(m);
    }
    forall i | 0 <= i < |keys| ensures p.versions[i].fileCount == |Bucket(fold, keys[i], members)| {
      assert p.versions[i] in p.versions;
    }
    BucketSizesSum(fold, keys, members, Map(FilesInVersion, p.versions));
  }

  /** Every member folded into a version has the version's precision. */
  lemma {:induction false} MembersShareThePrecision(
      p: Package, st: Setting, members: seq<Match>, v: Version, m: Match, q: Precision)
    requires st.Valid() && IsPackage(p, st, members) && !p.kind.FileKind? && v in p.versions
    requires m in members && st.lower(Parse(m).version) == st.lower(v.version)
    requires IsPrecision(q, st.lower, Parse(m).version, st.terms)
    ensures q == v.precision
  {
    hide Bucket, Parse, TypeOf, Sorted, IsBest, IsPrecision, IsLatest, SortBy, Sum;
    PrecisionFoldsCase(q, v.precision, st.lower, Parse(m).version, v.version, st.terms);
  }

  /** The best precision is attained by the version shown on top. */
  lemma {:induction false} TopVersionIsBest(p: Package, st: Setting, members: seq<Match>)
    requires IsPackage(p, st, members) && p.versions != []
    ensures p.top == p.versions[0].version && p.versions[0].precision == p.best
    ensures forall v :: v in p.versions ==> p.best.Rank() <= v.precision.Rank()
  {
    hide Counts, AreVersions, Parse, TypeOf, SortBy, CompareVectorDesc;
    assert p.versions[0] in p.versions;
    forall v | v in p.versions ensures p.versions[0].precision.Rank() <= v.precision.Rank() {
      var i :| 0 <= i < |p.versions| && p.versions[i] == v;
      assert i > 0 ==> VersionLe(st)(p.versions[0], p.versions[i]);
    }
  }

  /** Versions of the same members correspond by their folded text. */
  lemma {:induction false} Counterpart(
      vs: seq<Version>, st: Setting, s: seq<Match>, ws: seq<Version>, st': Setting, t: seq<Match>, v: Version)
    returns (w: Version)
    requires AreVersions(vs, st, s) && AreVersions(ws, st', t) && st.lower == st'.lower
    requires v in vs && forall m :: m in s ==> m in t
    ensures w in ws && st.lower(w.version) == st.lower(v.version)
  {
    hide Parse, Sum, IsLatest, IsPrecision, SortBy, TypeOf, Distinct;
    var members := Bucket(st.FoldedVersion(), st.lower(v.version), s);
    assert IsVersion(v, st, members);
    var m := members[0];
    assert m in members;
    w :| w in ws && st.lower(w.version) == st'.FoldedVersion()(m);
  }

  /** More terms never make the best precision of the same members worse. */
  lemma {:induction false} MoreTermsNeverWorsenPackage(
      p: Package, q: Package, st: Setting, more: seq<string>, members: seq<Match>)
    requires st.Valid() && IsPackage(p, st, members) && IsPackage(q, st.(terms := more), members)
    requires members != [] && forall t :: t in st.terms ==> t in more
    ensures q.best.Rank() <= p.best.Rank()
  {
    hide Counts, AreVersions, SortBy, CompareVectorDesc, Sorted, Parse, TypeOf, Setting.Valid;
    assert members[0] in members;
    if p.best != NoMatch {
      var v :| v in p.versions && v.precision == p.best;
      var w := Counterpart(p.versions, st, members, q.versions, st.(terms := more), members, v);
      VersionHasPrecision(p.versions, st, members, v);
      VersionHasPrecision(q.versions, st.(terms := more), members, w);
      WorseAcrossFolds(v, w, st, more);
    }
  }

  lemma {:induction false} VersionHasPrecision(vs: seq<Version>, st: Setting, members: seq<Match>, v: Version)
    requires AreVersions(vs, st, members) && v in vs
    ensures IsPrecision(v.precision, st.lower, v.version, st.terms)
  {
    hide Parse, Sum, IsLatest, IsPrecision, SortBy, TypeOf, Distinct, Bucket;
  }

  lemma {:induction false} WorseAcrossFolds(v: Version, w: Version, st: Setting, more: seq<string>)
    requires st.Valid() && st.lower(v.version) == st.lower(w.version) && forall t :: t in st.terms ==> t in more
    requires IsPrecision(v.precision, st.lower, v.version, st.terms)
    requires IsPrecision(w.precision, st.lower, w.version, more)
    ensures w.precision.Rank() <= v.precision.Rank()
  {
    assert forall t :: PrecisionOf(st.lower, v.version, t) == PrecisionOf(st.lower, w.version, t);
    assert w.version == "" ==> forall t :: PrecisionOf(st.lower, v.version, t) == NoMatch;
    hide PrecisionOf;
  }

  // ----- Independence of the order of the matches -----

  /** The same files in every version, and the same counts, whatever the order of lists and the texts shown. */
  ghost predicate SameVersion(v: Version, w: Version, st: Setting) {
    && st.lower(v.version) == st.lower(w.version) && v.precision == w.precision
    && v.fileCount == w.fileCount && v.size == w.size && v.latest == w.latest && multiset(v.files) == multiset(w.files)
  }

  ghost predicate SamePackage(p: Package, q: Package, st: Setting) {
    && p.kind == q.kind && p.coordinate == q.coordinate
    && p.fileCount == q.fileCount && p.versionCount == q.versionCount && p.best == q.best && p.latest == q.latest
    && (forall r :: r in p.repositories <==> r in q.repositories)
    && multiset(p.files) == multiset(q.files)
    && forall v :: v in p.versions ==> exists w :: w in q.versions && SameVersion(v, w, st)
  }

  lemma {:induction false} SameVersionOfSameMembers(v: Version, w: Version, st: Setting, s: seq<Match>, t: seq<Match>)
    requires st.Valid() && multiset(s) == multiset(t) && IsVersion(v, st, s) && IsVersion(w, st, t)
    requires st.lower(v.version) == st.lower(w.version)
    ensures SameVersion(v, w, st)
  {
    hide IsPrecision, IsLatest, Sum, SortBy, Parse, TypeOf, FileName, FileLe;
    PrecisionFoldsCase(v.precision, w.precision, st.lower, v.version, w.version, st.terms);
    SameSize(s, t);
    MapPermutes(SizeOf, s, t);
    SumPermutes(Map(SizeOf, s), Map(SizeOf, t));
    SameLatest(v.latest, w.latest, s, t);
    MapPermutes(ToFile(st.lower), s, t);
    SortPermutes(FileLe(st.locale), Map(ToFile(st.lower), s));
    SortPermutes(FileLe(st.locale), Map(ToFile(st.lower), t));
  }

  lemma {:induction false} SameLatest(a: string, b: string, s: seq<Match>, t: seq<Match>)
    requires multiset(s) == multiset(t) && IsLatest(a, Map(TimeOf, s)) && IsLatest(b, Map(TimeOf, t))
    ensures a == b
  {
    hide IsLatest;
    MapPermutes(TimeOf, s, t);
    SameSize(Map(TimeOf, s), Map(TimeOf, t));
    LatestIsUnique(a, b, Map(TimeOf, s), Map(TimeOf, t));
  }

  lemma {:induction false} SameVersions(vs: seq<Version>, ws: seq<Version>, st: Setting, s: seq<Match>, t: seq<Match>)
    requires st.Valid() && multiset(s) == multiset(t) && AreVersions(vs, st, s) && AreVersions(ws, st, t)
    ensures forall v :: v in vs ==> exists w :: w in ws && SameVersion(v, w, st)
  {
    SameSize(s, t);
    forall v | v in vs ensures exists w :: w in ws && SameVersion(v, w, st) {
      var w := VersionKept(vs, ws, st, s, t, v);
    }
  }

  lemma {:induction false} VersionKept(
      vs: seq<Version>, ws: seq<Version>, st: Setting, s: seq<Match>, t: seq<Match>, v: Version)
    returns (w: Version)
    requires st.Valid() && multiset(s) == multiset(t) && AreVersions(vs, st, s) && AreVersions(ws, st, t) && v in vs
    ensures w in ws && SameVersion(v, w, st)
  {
    hide IsVersion, Bucket, Setting.FoldedVersion, SameVersion, Setting.Valid;
    SameSize(s, t);
    w := Counterpart(vs, st, s, ws, st, t, v);
    var fold, k := st.FoldedVersion(), st.lower(v.version);
    BucketPermutes(fold, k, s, t);
    SameVersionOfSameMembers(v, w, st, Bucket(fold, k, s), Bucket(fold, k, t));
  }

  /** There are as many versions as folded texts, on either side. */
  lemma {:induction false} AtMostAsManyVersions(vs: seq<Version>, ws: seq<Version>, st: Setting)
    requires Distinct(vs) && forall v, w :: v in vs && w in vs && st.lower(v.version) == st.lower(w.version) ==> v == w
    requires forall v :: v in vs ==> exists w :: w in ws && SameVersion(v, w, st)
    ensures |vs| <= |ws|
  {
    hide SameVersion;
    var folds := seq(|vs|, i requires 0 <= i < |vs| => st.lower(vs[i].version));
    var others := seq(|ws|, i requires 0 <= i < |ws| => st.lower(ws[i].version));
    forall i, j | 0 <= i < j < |folds| ensures folds[i] != folds[j] {
      assert vs[i] in vs && vs[j] in vs && vs[i] != vs[j];
    }
    forall f | f in folds ensures f in others {
      var i :| 0 <= i < |folds| && folds[i] == f;
      assert vs[i] in vs;
      var w :| w in ws && SameVersion(vs[i], w, st);
      assert st.lower(w.version) == f by { SameFold(vs[i], w, st); }
      var j :| 0 <= j < |ws| && ws[j] == w;
      assert others[j] == f;
    }
    SetOfSeq(others);
    DistinctIn(folds, set f | f in others);
  }

  lemma {:induction false} SameFold(v: Version, w: Version, st: Setting)
    requires SameVersion(v, w, st)
    ensures st.lower(v.version) == st.lower(w.version) && v.precision == w.precision
  {}

  lemma {:induction false} BestIsNoWorse(p: Precision, vs: seq<Version>, q: Precision, ws: seq<Version>, st: Setting)
    requires IsBest(p, vs) && IsBest(q, ws) && forall v :: v in vs ==> exists w :: w in ws && SameVersion(v, w, st)
    ensures q.Rank() <= p.Rank()
  {
    hide SameVersion;
    if p != NoMatch {
      var v :| v in vs && v.precision == p;
      var w :| w in ws && SameVersion(v, w, st);
      SameFold(v, w, st);
    }
  }

  lemma {:induction false} CountsAgree(p: Package, q: Package, s: seq<Match>, t: seq<Match>)
    requires multiset(s) == multiset(t) && Counts(p, s) && Counts(q, t)
    ensures p.fileCount == q.fileCount && p.latest == q.latest
    ensures forall r :: r in p.repositories <==> r in q.repositories
  {
    hide IsLatest;
    SameSize(s, t);
    SameLatest(p.latest, q.latest, s, t);
  }

  lemma {:induction false} FilesAgree(st: Setting, s: seq<Match>, t: seq<Match>)
    requires multiset(s) == multiset(t)
    ensures multiset(SortBy(FileLe(st.locale), Map(ToFile(st.lower), s)))
         == multiset(SortBy(FileLe(st.locale), Map(ToFile(st.lower), t)))
  {
    hide *;
    MapPermutes(ToFile(st.lower), s, t);
    SortPermutes(FileLe(st.locale), Map(ToFile(st.lower), s));
    SortPermutes(FileLe(st.locale), Map(ToFile(st.lower), t));
  }

  lemma {:induction false} VersionsAgree(p: Package, q: Package, st: Setting, s: seq<Match>, t: seq<Match>)
    requires st.Valid() && multiset(s) == multiset(t) && AreVersions(p.versions, st, s)
    requires AreVersions(q.versions, st, t)
    requires IsBest(p.best, p.versions) && IsBest(q.best, q.versions)
    ensures |p.versions| == |q.versions| && p.best == q.best
    ensures forall v :: v in p.versions ==> exists w :: w in q.versions && SameVersion(v, w, st)
  {
    hide AreVersions, IsBest, SameVersion, Setting.Valid;
    SameVersions(p.versions, q.versions, st, s, t);
    SameVersions(q.versions, p.versions, st, t, s);
    DifferentFolds(p.versions, st, s);
    DifferentFolds(q.versions, st, t);
    AtMostAsManyVersions(p.versions, q.versions, st);
    AtMostAsManyVersions(q.versions, p.versions, st);
    BestIsNoWorse(p.best, p.versions, q.best, q.versions, st);
    BestIsNoWorse(q.best, q.versions, p.best, p.versions, st);
  }

  lemma {:induction false} SamePackageOfSameMembers(p: Package, q: Package, st: Setting, s: seq<Match>, t: seq<Match>)
    requires st.Valid() && multiset(s) == multiset(t) && s != [] && IsPackage(p, st, s) && IsPackage(q, st, t)
    ensures SamePackage(p, q, st)
  {
    hide Parse, AreVersions, Counts, Sorted, SortBy, SameVersion, Setting.Valid, TypeOf, FileName, FileLe, ToFile;
    SameSize(s, t);
    assert s[0] in s;
    CountsAgree(p, q, s, t);
    if p.kind.FileKind? {
      FilesAgree(st, s, t);
    } else {
      VersionsAgree(p, q, st, s, t);
    }
  }

  lemma {:induction false} DifferentFolds(vs: seq<Version>, st: Setting, members: seq<Match>)
    requires AreVersions(vs, st, members)
    ensures Distinct(vs) && forall v, w :: v in vs && w in vs && st.lower(v.version) == st.lower(w.version) ==> v == w
  {
    hide IsVersion, Bucket;
  }

  /** Permuting the matches changes no package beyond the order of its lists and the case of versions shown. */
  lemma {:induction false} PackagesIgnoreOrder(
      ps: seq<Package>, qs: seq<Package>, st: Setting, matches: seq<Match>, permuted: seq<Match>)
    requires st.Valid() && multiset(matches) == multiset(permuted)
    requires ArePackages(ps, st, matches) && ArePackages(qs, st, permuted)
    ensures forall p :: p in ps ==> exists q :: q in qs && SamePackage(p, q, st)
    ensures forall q :: q in qs ==> exists p :: p in ps && SamePackage(p, q, st)
  {
    hide ArePackages, SamePackage, Setting.Valid;
    forall p | p in ps ensures exists q :: q in qs && SamePackage(p, q, st) {
      var q := PackageKept(ps, qs, st, matches, permuted, p);
    }
    forall q | q in qs ensures exists p :: p in ps && SamePackage(p, q, st) {
      var p := PackageKept(qs, ps, st, permuted, matches, q);
      var q' := PackageKept(ps, qs, st, matches, permuted, p);
      SameKey(q, p, st);
      SameKey(p, q', st);
      KeyDecides(qs, st, permuted, q, q');
    }
  }

  lemma {:induction false} SameKey(p: Package, q: Package, st: Setting)
    requires SamePackage(p, q, st)
    ensures KeyOfPackage(p) == KeyOfPackage(q)
  {}

  lemma {:induction false} KeyDecides(ps: seq<Package>, st: Setting, matches: seq<Match>, p: Package, q: Package)
    requires ArePackages(ps, st, matches) && p in ps && q in ps && KeyOfPackage(p) == KeyOfPackage(q)
    ensures p == q
  {
    hide IsPackage, Bucket, KeyOfPackage;
  }

  lemma {:induction false} PackageKept(
      ps: seq<Package>, qs: seq<Package>, st: Setting, matches: seq<Match>, permuted: seq<Match>, p: Package)
    returns (q: Package)
    requires st.Valid() && multiset(matches) == multiset(permuted) && p in ps
    requires ArePackages(ps, st, matches) && ArePackages(qs, st, permuted)
    ensures q in qs && SamePackage(p, q, st)
  {
    hide IsPackage, SamePackage, Setting.Valid, KeyOfPackage, KeyOf;
    var k := KeyOfPackage(p);
    var members := Bucket(KeyOf, k, matches);
    assert members[0] in members;
    SameSize(matches, permuted);
    q :| q in qs && KeyOfPackage(q) == KeyOf(members[0]);
    BucketPermutes(KeyOf, k, matches, permuted);
    SamePackageOfSameMembers(p, q, st, members, Bucket(KeyOf, k, permuted));
  }
}
