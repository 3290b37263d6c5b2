/** The coordinates of a search match: which package its path belongs to, and which version. */
module SearchCoordinates {
  import opened Text
  import opened Seqs
  import opened Wrappers
  import opened StorePaths
  import opened StoreState

  datatype Kind = MavenKind | NpmKind | FileKind

  datatype Coordinates = Coordinates(kind: Kind, coordinate: string, version: string)

  datatype Match = Match(repository: string, format: string, path: string, size: int, sha1: string, updatedAt: string)

  /** The pieces between the occurrences of a character. */
  function Split(c: char, s: string): (r: seq<string>)
    ensures |r| > 0
  {
    if s == [] then [""]
    else
      var rest := Split(c, s[1..]);
      if s[0] == c then [""] + rest else [[s[0]] + rest[0]] + rest[1..]
  }

  function Join(c: char, parts: seq<string>): string {
    if parts == [] then "" else if |parts| == 1 then parts[0] else parts[0] + [c] + Join(c, parts[1..])
  }

  predicate NonEmptyText(s: string) { s != "" }

  function PathSegments(path: string): seq<string> { Filter(NonEmptyText, Split('/', path)) }

  predicate StartsWithDigit(s: string) { s != "" && IsDigit(s[0]) }

  function ParseMaven(path: string): Option<Coordinates> {
    var segments := PathSegments(path);
    var n := |segments|;
    if n < 4 || !StartsWithDigit(segments[n - 2]) then None
    else
      var group := Join('.', segments[..n - 3]);
      if group == "" || segments[n - 3] == "" then None
      else Some(Coordinates(MavenKind, group + ":" + segments[n - 3], segments[n - 2]))
  }

  /** The name without a ".tgz" at its end, in any case. */
  function WithoutTgz(name: string): string {
    var n := |name|;
    if n >= 4 && name[n - 4] == '.' && name[n - 3] in "tT" && name[n - 2] in "gG" && name[n - 1] in "zZ"
    then name[..n - 4] else name
  }

  function ParseNpm(path: string): Option<Coordinates> {
    var segments := PathSegments(path);
    if segments == [] then None
    else
      var scoped := segments[0] != "" && segments[0][0] == '@';
      var names := if scoped then 2 else 1;
      if |segments| < names then None
      else
        var coordinate, rest := Join('/', segments[..names]), segments[names..];
        if rest == [] then Some(Coordinates(NpmKind, coordinate, ""))
        else if !scoped && rest[0] == "-" then
          var bare, prefix := WithoutTgz(rest[|rest| - 1]), coordinate + "-";
          Some(Coordinates(NpmKind, coordinate, if prefix <= bare then bare[|prefix|..] else ""))
        else Some(Coordinates(NpmKind, coordinate, if StartsWithDigit(rest[0]) then rest[0] else ""))
  }

  /** The coordinates by the format of the repository; without any, the repository stands for the package. */
  function Parse(m: Match): Coordinates {
    var parsed := if m.format == "maven" then ParseMaven(m.path)
                  else if m.format == "npm" then ParseNpm(m.path)
                  else None;
    match parsed
    case Some(c) => c
    case None => Coordinates(FileKind, m.repository, "")
  }

  function KindText(k: Kind): string { if k.MavenKind? then "maven" else if k.NpmKind? then "npm" else "file" }

  function PackageKey(c: Coordinates): string { KindText(c.kind) + ":" + c.coordinate }

  /** The package a match is grouped under. */
  function KeyOf(m: Match): string { PackageKey(Parse(m)) }

  /** Two matches share a package exactly when kind and coordinate agree. */
  lemma {:induction false} PackageKeyIsInjective(c: Coordinates, d: Coordinates)
    ensures PackageKey(c) == PackageKey(d) <==> c.kind == d.kind && c.coordinate == d.coordinate
  {
    var s, t := PackageKey(c), PackageKey(d);
    if s == t {
      assert s[0] == t[0];
      assert s[|KindText(c.kind)| + 1..] == c.coordinate && t[|KindText(d.kind)| + 1..] == d.coordinate;
    }
  }

  // ----- What is uploaded is found under its own coordinates -----

  predicate Plain(c: char, s: string) { s != "" && c !in s }

  lemma {:induction false} SplitPiece(c: char, s: string, rest: string)
    requires c !in s
    ensures Split(c, s) == [s]
    ensures Split(c, s + [c] + rest) == [s] + Split(c, rest)
  {
    var whole := s + [c] + rest;
    if s == [] {
      assert whole[1..] == rest;
    } else {
      assert whole[1..] == s[1..] + [c] + rest;
      SplitPiece(c, s[1..], rest);
      assert [s[0]] + s[1..] == s;
    }
  }

  /** Splitting undoes joining. */
  lemma {:induction false} SplitJoin(c: char, parts: seq<string>)
    requires parts != [] && forall p :: p in parts ==> c !in p
    ensures Split(c, Join(c, parts)) == parts
  {
    if |parts| == 1 {
      SplitPiece(c, parts[0], "");
    } else {
      SplitPiece(c, parts[0], Join(c, parts[1..]));
      SplitJoin(c, parts[1..]);
    }
  }

  lemma {:induction false} JoinAppend(c: char, parts: seq<string>, last: string)
    requires parts != []
    ensures Join(c, parts + [last]) == Join(c, parts) + [c] + last
  {
    assert (parts + [last])[1..] == parts[1..] + [last];
    if |parts| > 1 {
      JoinAppend(c, parts[1..], last);
    }
  }

  lemma {:induction false} SlashedText(s: string)
    requires '.' !in s
    ensures SlashedDots(s) == s
  {
    if s != [] {
      SlashedText(s[1..]);
    }
  }

  lemma {:induction false} SlashedConcat(s: string, t: string)
    ensures SlashedDots(s + t) == SlashedDots(s) + SlashedDots(t)
  {
    if s == [] {
      assert s + t == t;
    } else {
      assert (s + t)[1..] == s[1..] + t;
      SlashedConcat(s[1..], t);
    }
  }

  /** Turning the dots of a group into slashes turns its parts into folders. */
  lemma {:induction false} SlashedGroup(parts: seq<string>)
    requires forall p :: p in parts ==> '.' !in p
    ensures SlashedDots(Join('.', parts)) == Join('/', parts)
  {
    if parts == [] {
    } else if |parts| == 1 {
      SlashedText(parts[0]);
    } else {
      var tail := Join('.', parts[1..]);
      SlashedConcat(parts[0] + ".", tail);
      SlashedConcat(parts[0], ".");
      SlashedText(parts[0]);
      SlashedGroup(parts[1..]);
    }
  }

  lemma {:induction false} JoinsPath(parts: seq<string>, artifact: string, version: string, file: string)
    requires parts != []
    ensures Join('/', parts + [artifact] + [version] + [file])
         == Join('/', parts) + "/" + artifact + "/" + version + "/" + file
  {
    JoinAppend('/', parts, artifact);
    JoinAppend('/', parts + [artifact], version);
    JoinAppend('/', parts + [artifact] + [version], file);
  }

  lemma {:induction false} SegmentsOfJoin(segments: seq<string>)
    requires segments != [] && forall p :: p in segments ==> Plain('/', p)
    ensures PathSegments(Join('/', segments)) == segments
  {
    SplitJoin('/', segments);
    FilterAll(NonEmptyText, segments);
  }

  lemma {:induction false} MavenPathParses(parts: seq<string>, artifact: string, version: string, file: string)
    requires parts != [] && (forall p :: p in parts ==> Plain('/', p))
    requires Plain('/', artifact) && Plain('/', version) && Plain('/', file) && StartsWithDigit(version)
    ensures ParseMaven(Join('/', parts) + "/" + artifact + "/" + version + "/" + file)
         == Some(Coordinates(MavenKind, Join('.', parts) + ":" + artifact, version))
  {
    hide PathSegments, Join;
    var segments := parts + [artifact] + [version] + [file];
    assert forall p :: p in segments ==> Plain('/', p);
    JoinsPath(parts, artifact, version, file);
    SegmentsOfJoin(segments);
    assert segments[..|segments| - 3] == parts;
    assert Plain('/', parts[0]);
    JoinNonEmpty('.', parts);
  }

  lemma {:induction false} JoinNonEmpty(c: char, parts: seq<string>)
    requires parts != [] && parts[0] != ""
    ensures Join(c, parts) != ""
  {}

  /** What stands behind artifact and version in the names of an upload's version files. */
  function Tails(packaging: string): seq<string> {
    ["." + packaging, "." + packaging + ".md5", "." + packaging + ".sha1", ".pom", ".pom.md5", ".pom.sha1"]
  }

  lemma {:induction false} PathOfVersionFile(
      group: string, artifact: string, version: string, packaging: string, size: int, now: string, i: nat)
    requires i < |MavenFiles(group, artifact, version, packaging, size, now)| - 3
    ensures i < 6
    ensures MavenFiles(group, artifact, version, packaging, size, now)[i].path
         == SlashedDots(group) + "/" + artifact + "/" + version + "/" + (artifact + "-" + version + Tails(packaging)[i])
  {
    hide SlashedDots;
    var folder, name := SlashedDots(group) + "/" + artifact, artifact + "-" + version;
    assert folder + "/" + version + "/" + artifact + "-" + version == folder + "/" + version + "/" + name;
    var file := folder + "/" + version + "/" + name;
    assert file + Tails(packaging)[i] == folder + "/" + version + "/" + (name + Tails(packaging)[i]);
    assert file + "." + packaging == file + ("." + packaging);
    assert file + "." + packaging + ".md5" == file + ("." + packaging + ".md5");
    assert file + "." + packaging + ".sha1" == file + ("." + packaging + ".sha1");
    assert file + ".pom" + ".md5" == file + ".pom.md5" && file + ".pom" + ".sha1" == file + ".pom.sha1";
  }

  /** Every file an upload puts into its version folder is found again under the uploaded group, artifact
      and version, when no part is empty or has a slash, and the version starts with a digit. */
  lemma {:induction false} UploadIsFoundUnderItsCoordinates(
      parts: seq<string>, artifact: string, version: string, packaging: string, size: int, now: string, i: nat,
      m: Match)
    requires parts != [] && (forall p :: p in parts ==> Plain('/', p) && '.' !in p)
    requires Plain('/', artifact) && Plain('/', version) && StartsWithDigit(version) && '/' !in packaging
    requires var files := MavenFiles(Join('.', parts), artifact, version, packaging, size, now);
             i < |files| - 3 && m.path == files[i].path && m.format == "maven"
    ensures Parse(m) == Coordinates(MavenKind, Join('.', parts) + ":" + artifact, version)
  {
    hide MavenFiles, ParseMaven, Join, SlashedDots;
    SlashedGroup(parts);
    PathOfVersionFile(Join('.', parts), artifact, version, packaging, size, now, i);
    var name := artifact + "-" + version + Tails(packaging)[i];
    assert Plain('/', name);
    MavenPathParses(parts, artifact, version, name);
  }

  // ----- Where npm paths are found -----

  /** A tarball of a package without a scope is found under its name, with the version from the file's name. */
  lemma {:induction false} TarballIsFound(name: string, version: string, m: Match)
    requires Plain('/', name) && name[0] != '@' && '/' !in version
    requires m.format == "npm" && m.path == name + "/-/" + name + "-" + version + ".tgz"
    ensures Parse(m) == Coordinates(NpmKind, name, version)
  {
    hide PathSegments, Join, WithoutTgz;
    var file := name + "-" + version + ".tgz";
    var segments := [name, "-", file];
    assert m.path == Join('/', segments) by { JoinOfThree(name, "-", file); }
    SegmentsOfJoin(segments);
    TarballName(name, version);
    assert segments[..1] == [name] && segments[1..] == ["-", file];
    JoinOfOne(name);
  }

  lemma {:induction false} TarballName(name: string, version: string)
    ensures WithoutTgz(name + "-" + version + ".tgz") == name + "-" + version
    ensures name + "-" <= name + "-" + version && (name + "-" + version)[|name| + 1..] == version
  {
    var bare := name + "-" + version;
    assert (bare + ".tgz")[..|bare|] == bare && (bare + ".tgz")[|bare|..] == ".tgz";
  }

  lemma {:induction false} JoinOfOne(a: string)
    ensures Join('/', [a]) == a
  {}

  lemma {:induction false} JoinOfThree(a: string, b: string, c: string)
    ensures Join('/', [a, b, c]) == a + "/" + b + "/" + c
    ensures Join('/', [a, b]) == a + "/" + b
  {
    assert [a, b, c] == [a] + [b] + [c] && [a, b] == [a] + [b];
    JoinAppend('/', [a], b);
    JoinAppend('/', [a] + [b], c);
  }

  /** A path of a package with a scope is found under both names, with the next part as the version if it starts with a
      digit, and without one otherwise, which is so for a tarball. */
  lemma {:induction false} ScopedPathIsFound(scope: string, name: string, rest: seq<string>, m: Match)
    requires Plain('/', scope) && scope[0] == '@' && Plain('/', name) && forall p :: p in rest ==> Plain('/', p)
    requires m.format == "npm" && m.path == Join('/', [scope, name] + rest)
    ensures Parse(m)
         == Coordinates(NpmKind, scope + "/" + name, if rest != [] && StartsWithDigit(rest[0]) then rest[0] else "")
  {
    hide PathSegments, Join;
    var segments := [scope, name] + rest;
    SegmentsOfJoin(segments);
    JoinOfThree(scope, name, "");
    assert segments[..2] == [scope, name] && segments[2..] == rest;
  }

  /** Any other path of a package without a scope likewise; a scope alone, and a path in a repository of another
      format, belongs to no package. */
  lemma {:induction false} OtherPathsAreFound(name: string, rest: seq<string>, m: Match)
    requires Plain('/', name) && (forall p :: p in rest ==> Plain('/', p)) && m.path == Join('/', [name] + rest)
    ensures m.format == "npm" && name[0] != '@' && (rest == [] || rest[0] != "-") ==>
      Parse(m) == Coordinates(NpmKind, name, if rest != [] && StartsWithDigit(rest[0]) then rest[0] else "")
    ensures (m.format == "npm" && name[0] == '@' && rest == []) || m.format !in ["maven", "npm"] ==>
      Parse(m) == Coordinates(FileKind, m.repository, "")
  {
    hide PathSegments, Join, ParseMaven;
    var segments := [name] + rest;
    SegmentsOfJoin(segments);
    JoinOfOne(name);
    assert segments[..1] == [name] && segments[1..] == rest;
  }

  /** A path in a Maven repository belongs to a package exactly when it has four parts and the last but one starts with
      a digit; otherwise it stands for its repository. */
  lemma {:induction false} MavenPathsWithVersion(segments: seq<string>, m: Match)
    requires segments != [] && (forall p :: p in segments ==> Plain('/', p))
    requires m.format == "maven" && m.path == Join('/', segments)
    ensures Parse(m).kind == MavenKind <==> |segments| >= 4 && StartsWithDigit(segments[|segments| - 2])
    ensures Parse(m).kind != MavenKind ==> Parse(m) == Coordinates(FileKind, m.repository, "")
  {
    hide PathSegments, Join;
    SegmentsOfJoin(segments);
    assert segments[0] in segments;
    if |segments| >= 4 {
      assert segments[|segments| - 3] in segments && segments[|segments| - 2] in segments;
      assert segments[..|segments| - 3][0] == segments[0];
      JoinNonEmpty('.', segments[..|segments| - 3]);
    }
  }
}
