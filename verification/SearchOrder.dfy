/** The order of search results, written out. */
module SearchOrder {
  import opened Wrappers
  import opened Text
  import opened Seqs
  import opened SearchVersions
  import opened SearchCoordinates
  import opened SearchPackages

  /** The numbers of one version are greater than those of the other, at the first place where they differ. */
  ghost predicate Greater(a: string, b: string) { exists k :: GreaterAt(Vector(a), Vector(b), k) }

  /** Exact before prerelease before substring before none. */
  predicate AtLeastAsPrecise(p: Precision, q: Precision) {
    match q
    case Exact => p.Exact?
    case Prerelease => p.Exact? || p.Prerelease?
    case Substring => !p.NoMatch?
    case NoMatch => true
  }

  /** The kinds of files, the most wanted first. */
  const FILE_GROUPS := [{Jar}, {War, Ear, Aar, Tgz}, {Sources}, {Javadoc}, {Tests}, {Pom, Packument}, {Metadata},
                        {Other}, {Checksum}]

  ghost predicate FileBefore(st: Setting, a: File, b: File) {
    exists g, h :: 0 <= g <= h < |FILE_GROUPS| && a.fileType in FILE_GROUPS[g] && b.fileType in FILE_GROUPS[h]
                   && (g == h ==> st.locale(a.path, b.path))
  }

  /** The more precise version first, then the greater one, then the order of the locale. */
  ghost predicate VersionBefore(st: Setting, v: Version, w: Version) {
    && AtLeastAsPrecise(v.precision, w.precision)
    && (v.precision == w.precision ==>
         && !Greater(w.version, v.version)
         && (!Greater(v.version, w.version) ==> st.locale(v.version, w.version)))
  }

  /** The more precise package first; if a version matched, the greater top version; then the later time; then the
      order of the locale. */
  ghost predicate PackageBefore(st: Setting, p: Package, q: Package) {
    && AtLeastAsPrecise(p.best, q.best)
    && (p.best == q.best ==>
         && (p.best != NoMatch ==> !Greater(q.top, p.top))
         && (p.best == NoMatch || !Greater(p.top, q.top) ==>
              AtOrBefore(q.latest, p.latest) && (p.latest == q.latest ==> st.locale(p.coordinate, q.coordinate))))
  }

  lemma {:induction false} ComparisonMeansGreater(a: string, b: string)
    ensures CompareVectorDesc(a, b) < 0 <==> Greater(a, b)
    ensures CompareVectorDesc(a, b) > 0 <==> Greater(b, a)
  {
    hide Vector, DifferenceFrom, GreaterAt;
    DifferenceMeans(Vector(a), Vector(b), 0);
  }

  lemma {:induction false} RankMeans(p: Precision, q: Precision)
    ensures p.Rank() <= q.Rank() <==> AtLeastAsPrecise(p, q)
    ensures p.Rank() < 3 <==> p != NoMatch
  {
    match p case Exact => case Prerelease => case Substring => case NoMatch =>
  }

  lemma {:induction false} VersionLeMeans(st: Setting, v: Version, w: Version)
    requires VersionLe(st)(v, w)
    ensures VersionBefore(st, v, w)
  {
    hide CompareVectorDesc, Greater, AtLeastAsPrecise, Precision.Rank;
    RankMeans(v.precision, w.precision);
    ComparisonMeansGreater(v.version, w.version);
  }

  lemma {:induction false} PackageLeMeans(st: Setting, p: Package, q: Package)
    requires PackageLe(st)(p, q)
    ensures PackageBefore(st, p, q)
  {
    hide CompareVectorDesc, Greater, Before, AtLeastAsPrecise, Precision.Rank;
    RankMeans(p.best, q.best);
    ComparisonMeansGreater(p.top, q.top);
    BeforeIsStrict(p.latest, q.latest);
  }

  lemma {:induction false} FileLeMeans(st: Setting, a: File, b: File)
    requires FileLe(st.locale)(a, b)
    ensures FileBefore(st, a, b)
  {
    hide FileType.Priority;
    var g := GroupOf(a.fileType);
    var h := GroupOf(b.fileType);
    assert a.fileType in FILE_GROUPS[g] && b.fileType in FILE_GROUPS[h];
  }

  lemma {:induction false} GroupOf(t: FileType) returns (g: nat)
    ensures g < |FILE_GROUPS| && t in FILE_GROUPS[g]
    ensures g == 8 == t.Priority() - 1 || g == t.Priority() < 8
  {
    match t
    case Jar => g := 0;
    case War => g := 1;
    case Ear => g := 1;
    case Aar => g := 1;
    case Tgz => g := 1;
    case Sources => g := 2;
    case Javadoc => g := 3;
    case Tests => g := 4;
    case Pom => g := 5;
    case Packument => g := 5;
    case Metadata => g := 6;
    case Other => g := 7;
    case Checksum => g := 8;
  }

  ghost predicate FilesInOrder(st: Setting, files: seq<File>) {
    forall i, j :: 0 <= i < j < |files| ==> FileBefore(st, files[i], files[j])
  }

  lemma {:induction false} SortedFilesInOrder(st: Setting, files: seq<File>)
    requires st.Valid()
    ensures FilesInOrder(st, SortBy(FileLe(st.locale), files))
  {
    hide FileLe, FileBefore, SortBy;
    var sorted := SortBy(FileLe(st.locale), files);
    OrdersAreTotal(st);
    SortSorts(FileLe(st.locale), files);
    forall i, j | 0 <= i < j < |sorted| ensures FileBefore(st, sorted[i], sorted[j]) {
      FileLeMeans(st, sorted[i], sorted[j]);
    }
  }

  /** A package's versions and files in their order, and a top version that no version of the best precision exceeds. */
  lemma {:induction false} PackageInOrder(p: Package, st: Setting, members: seq<Match>)
    requires st.Valid() && IsPackage(p, st, members)
    ensures forall i, j :: 0 <= i < j < |p.versions| ==> VersionBefore(st, p.versions[i], p.versions[j])
    ensures forall v :: v in p.versions && v.precision == p.best ==> !Greater(v.version, p.top)
    ensures FilesInOrder(st, p.files) && forall v :: v in p.versions ==> FilesInOrder(st, v.files)
  {
    hide Counts, Parse, IsBest, VersionLe, VersionBefore, FileLe, FilesInOrder, SortBy, Greater, IsTally, Bucket,
         Setting.FoldedVersion, ToFile, Setting.Valid;
    forall i, j | 0 <= i < j < |p.versions| ensures VersionBefore(st, p.versions[i], p.versions[j]) {
      VersionLeMeans(st, p.versions[i], p.versions[j]);
    }
    forall v | v in p.versions && v.precision == p.best ensures !Greater(v.version, p.top) {
      TopVersionIsBest(p, st, members);
      var i :| 0 <= i < |p.versions| && p.versions[i] == v;
      NotAboveFirst(st, p.versions, i);
    }
    SortedFilesInOrder(st, Map(ToFile(st.lower), members));
    SortedFilesInOrder(st, []);
    EmptySort(FileLe(st.locale));
    forall v | v in p.versions ensures FilesInOrder(st, v.files) {
      var own := Bucket(st.FoldedVersion(), st.lower(v.version), members);
      assert IsVersion(v, st, own);
      SortedFilesInOrder(st, Map(ToFile(st.lower), own));
    }
  }

  lemma {:induction false} NotAboveFirst(st: Setting, versions: seq<Version>, i: nat)
    requires i < |versions| && versions[0].precision == versions[i].precision
    requires forall j :: 0 < j < |versions| ==> VersionBefore(st, versions[0], versions[j])
    ensures !Greater(versions[i].version, versions[0].version)
  {}

  /** The search result in its order, on all three levels. */
  lemma {:induction false} ResultsInOrder(packages: seq<Package>, st: Setting, matches: seq<Match>)
    requires st.Valid() && ArePackages(packages, st, matches) && Sorted(PackageLe(st), packages)
    ensures forall i, j :: 0 <= i < j < |packages| ==> PackageBefore(st, packages[i], packages[j])
    ensures forall p :: p in packages ==>
      && (forall i, j :: 0 <= i < j < |p.versions| ==> VersionBefore(st, p.versions[i], p.versions[j]))
      && (forall v :: v in p.versions && v.precision == p.best ==> !Greater(v.version, p.top))
      && FilesInOrder(st, p.files) && forall v :: v in p.versions ==> FilesInOrder(st, v.files)
  {
    hide IsPackage, PackageLe, PackageBefore, VersionBefore, FilesInOrder, Greater, KeyOfPackage, Bucket, Setting.Valid;
    forall i, j | 0 <= i < j < |packages| ensures PackageBefore(st, packages[i], packages[j]) {
      PackageLeMeans(st, packages[i], packages[j]);
    }
    forall p | p in packages
      ensures forall i, j :: 0 <= i < j < |p.versions| ==> VersionBefore(st, p.versions[i], p.versions[j])
      ensures forall v :: v in p.versions && v.precision == p.best ==> !Greater(v.version, p.top)
      ensures FilesInOrder(st, p.files) && forall v :: v in p.versions ==> FilesInOrder(st, v.files)
    {
      PackageInOrder(p, st, Bucket(KeyOf, KeyOfPackage(p), matches));
    }
  }

  // ----- The kinds of files -----

  lemma {:induction false} BehindLastIs(c: char, before: string, behind: string)
    requires c !in behind
    ensures BehindLast(c, before + [c] + behind) == Some(behind)
    ensures BehindLast(c, behind) == None
  {
    if behind == [] {
      assert before + [c] + behind == before + [c];
    } else {
      var init, last := behind[..|behind| - 1], behind[|behind| - 1];
      var whole := before + [c] + behind;
      BehindLastIs(c, before, init);
      assert behind == init + [last] && whole[..|whole| - 1] == before + [c] + init;
    }
  }

  lemma {:induction false} NameOfPath(dir: string, stem: string, ending: string)
    requires '/' !in stem && '/' !in ending && '.' !in ending
    ensures FileName(dir + "/" + (stem + "." + ending)) == stem + "." + ending
    ensures BehindLast('.', stem + "." + ending) == Some(ending)
  {
    BehindLastIs('/', dir, stem + "." + ending);
    BehindLastIs('.', stem, ending);
  }

  /** A file in a folder, whose name and ending case folding leaves as they are. */
  ghost predicate Named(lower: string -> string, path: string, name: string, ending: string) {
    && (exists dir, stem :: path == dir + "/" + name && name == stem + "." + ending && '/' !in stem)
    && '/' !in ending && '.' !in ending && lower(ending) == ending && lower(name) == name
  }

  lemma {:induction false} PartsOfName(lower: string -> string, path: string, name: string, ending: string)
    requires Named(lower, path, name, ending)
    ensures FileName(path) == name && BehindLast('.', name) == Some(ending)
  {
    hide FileName, BehindLast;
    var dir, stem :| path == dir + "/" + name && name == stem + "." + ending && '/' !in stem;
    NameOfPath(dir, stem, ending);
  }

  lemma {:induction false} EndingOfMetadata(name: string, ending: string)
    requires BehindLast('.', name) == Some(ending) && ending != "xml"
    ensures name != "maven-metadata.xml"
  {
    assert "maven-metadata.xml" == "maven-metadata" + "." + "xml";
    BehindLastIs('.', "maven-metadata", "xml");
  }

  /** The kind of a file: by its ending; a jar by the markers in its name; a description of an npm package when it is at
      most two parts deep; and the metadata of Maven by its name. */
  lemma {:induction false} KindByName(
      lower: string -> string, path: string, name: string, ending: string, format: string)
    requires Named(lower, path, name, ending)
    ensures TypeOf(lower, path, format)
         == match ending
            case "war" => War
            case "ear" => Ear
            case "aar" => Aar
            case "tgz" => Tgz
            case "pom" => Pom
            case "module" => Metadata
            case "sha1" => Checksum
            case "md5" => Checksum
            case "sha256" => Checksum
            case "sha512" => Checksum
            case "asc" => Checksum
            case "jar" =>
              if Contains(name, "-sources") then Sources
              else if Contains(name, "-javadoc") then Javadoc
              else if Contains(name, "-tests") then Tests
              else Jar
            case "json" => if format == "npm" && |PathSegments(path)| <= 2 then Packument else Other
            case _ => if name == "maven-metadata.xml" then Metadata else Other
  {
    hide Contains, PathSegments, FileName, BehindLast;
    PartsOfName(lower, path, name, ending);
    if ending != "xml" {
      EndingOfMetadata(name, ending);
    }
  }
}
