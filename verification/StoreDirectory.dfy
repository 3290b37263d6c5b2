/** Listing one directory level, and descending through the levels. */
module StoreDirectory {
  import opened Text
  import opened Seqs
  import opened StorePaths

  function FirstSlash(s: string): (i: nat)
    ensures i <= |s| && (i < |s| ==> s[i] == '/') && forall j :: 0 <= j < i ==> s[j] != '/'
  {
    if s == [] || s[0] == '/' then 0 else 1 + FirstSlash(s[1..])
  }

  /** A file directly at the level of the prefix. */
  predicate IsFileAt(prefix: string, path: string) {
    prefix <= path && FirstSlash(path[|prefix|..]) == |path| - |prefix|
  }

  /** The next directory on the way to a path below the prefix, with its trailing slash. */
  function NextDirectory(prefix: string, path: string): string
    requires prefix <= path && !IsFileAt(prefix, path)
  {
    prefix + path[|prefix|..][..FirstSlash(path[|prefix|..]) + 1]
  }

  predicate IsIn(prefix: string, directory: string, path: string) {
    prefix <= path && !IsFileAt(prefix, path) && NextDirectory(prefix, path) == directory
  }

  function FileAt(prefix: string): Asset -> bool { (a: Asset) => IsFileAt(prefix, a.path) }

  function ByPath(locale: (string, string) -> bool): (Asset, Asset) -> bool {
    (a: Asset, b: Asset) => locale(a.path, b.path)
  }

  /** What the loop has collected of the assets it has met. */
  ghost predicate Collected(directories: seq<string>, files: seq<Asset>, prefix: string, met: seq<Asset>) {
    && Distinct(directories)
    && (forall d :: d in directories <==> exists a :: a in met && IsIn(prefix, d, a.path))
    && files == Filter(FileAt(prefix), met)
  }

  lemma {:induction false} NothingCollected(prefix: string)
    ensures Collected([], [], prefix, [])
  {}

  lemma {:induction false} ElsewhereOrFile(
      directories: seq<string>, files: seq<Asset>, prefix: string, met: seq<Asset>, asset: Asset)
    requires Collected(directories, files, prefix, met) && (prefix <= asset.path ==> IsFileAt(prefix, asset.path))
    ensures Collected(directories, if prefix <= asset.path then files + [asset] else files, prefix, met + [asset])
  {
    hide Filter, Distinct;
    FilterStep(FileAt(prefix), met, asset);
    assert forall d :: !IsIn(prefix, d, asset.path);
    hide IsIn;
  }

  lemma {:induction false} InDirectory(
      directories: seq<string>, files: seq<Asset>, prefix: string, met: seq<Asset>, asset: Asset)
    requires Collected(directories, files, prefix, met) && prefix <= asset.path && !IsFileAt(prefix, asset.path)
    ensures var d := NextDirectory(prefix, asset.path);
            Collected(if d in directories then directories else directories + [d], files, prefix, met + [asset])
  {
    hide Filter;
    FilterStep(FileAt(prefix), met, asset);
    var d := NextDirectory(prefix, asset.path);
    assert forall c :: IsIn(prefix, c, asset.path) <==> c == d;
    hide IsIn, IsFileAt;
  }

  /** The files and the directories of one level; locale is the order files are shown in. */
  method ListDirectory(assets: seq<Asset>, prefix: string, locale: (string, string) -> bool)
    returns (directories: seq<string>, files: seq<Asset>)
    ensures forall d :: d in directories <==> exists a :: a in assets && IsIn(prefix, d, a.path)
    ensures forall i, j :: 0 <= i < j < |directories| ==> Before(directories[i], directories[j])
    ensures Distinct(directories)
    ensures files == SortBy(ByPath(locale), Filter(FileAt(prefix), assets))
  {
    hide Collected, FileAt, Filter, SortBy;
    directories, files := [], [];
    NothingCollected(prefix);
    assert assets[..0] == [];
    for i := 0 to |assets|
      invariant Collected(directories, files, prefix, assets[..i])
    {
      var asset := assets[i];
      assert assets[..i + 1] == assets[..i] + [asset];
      if !(prefix <= asset.path) {
        ElsewhereOrFile(directories, files, prefix, assets[..i], asset);
        continue;
      }
      var rest := asset.path[|prefix|..];
      var slash := FirstSlash(rest);
      if slash < |rest| {
        InDirectory(directories, files, prefix, assets[..i], asset);
        var d := prefix + rest[..slash + 1];
        if d !in directories {
          directories := directories + [d];
        }
      } else {
        ElsewhereOrFile(directories, files, prefix, assets[..i], asset);
        files := files + [asset];
      }
    }
    assert assets[..|assets|] == assets;
    CollectedAll(directories, files, prefix, assets);
    SortedTextsAscend(directories);
    directories := SortBy(AtOrBefore, directories);
    files := SortBy(ByPath(locale), files);
  }

  lemma {:induction false} CollectedAll(directories: seq<string>, files: seq<Asset>, prefix: string, assets: seq<Asset>)
    requires Collected(directories, files, prefix, assets)
    ensures Distinct(directories) && files == Filter(FileAt(prefix), assets)
    ensures forall d :: d in directories <==> exists a :: a in assets && IsIn(prefix, d, a.path)
  {}

  // ----- Descending -----

  function MaxLength(assets: seq<Asset>): nat {
    if assets == [] then 0
    else
      var m := MaxLength(assets[..|assets| - 1]);
      if |assets[|assets| - 1].path| > m then |assets[|assets| - 1].path| else m
  }

  lemma {:induction false} WithinMaxLength(assets: seq<Asset>, a: Asset)
    requires a in assets
    ensures |a.path| <= MaxLength(assets)
  {
    if a != assets[|assets| - 1] {
      WithinMaxLength(assets[..|assets| - 1], a);
    }
  }

  /** Below a directory lies exactly what has it as next directory. */
  lemma {:induction false} DirectoryOwnsItsPaths(prefix: string, directory: string, witness': string, path: string)
    requires IsIn(prefix, directory, witness')
    ensures |directory| > |prefix| && directory <= witness'
    ensures directory <= path <==> IsIn(prefix, directory, path)
  {
    var rest := witness'[|prefix|..];
    var n := FirstSlash(rest);
    assert directory == witness'[..|prefix| + n + 1];
    if directory <= path {
      assert prefix <= path;
      var tail := path[|prefix|..];
      assert tail[..n + 1] == rest[..n + 1];
      assert forall j :: 0 <= j <= n ==> tail[j] == rest[j];
      assert FirstSlash(tail) == n;
    }
    if IsIn(prefix, directory, path) {
      var tail := path[|prefix|..];
      assert directory == path[..|prefix| + FirstSlash(tail) + 1];
    }
  }

  function StartsWith(prefix: string): Asset -> bool { (a: Asset) => prefix <= a.path }

  /** Seen at this level or in one of the directories. */
  predicate Met(prefix: string, directories: seq<string>, path: string) {
    IsFileAt(prefix, path) || exists i :: 0 <= i < |directories| && IsIn(prefix, directories[i], path)
  }

  function MetIn(prefix: string, directories: seq<string>): Asset -> bool {
    (a: Asset) => Met(prefix, directories, a.path)
  }

  lemma {:induction false} OneMoreDirectory(
      assets: seq<Asset>, prefix: string, directories: seq<string>, i: nat, a: Asset)
    requires Distinct(directories) && i < |directories| && a in assets && IsIn(prefix, directories[i], a.path)
    ensures multiset(Filter(MetIn(prefix, directories[..i + 1]), assets))
         == multiset(Filter(MetIn(prefix, directories[..i]), assets))
           + multiset(Filter(StartsWith(directories[i]), assets))
  {
    hide Filter, IsIn, IsFileAt;
    var before, d := directories[..i], directories[i];
    assert directories[..i + 1] == before + [d];
    forall x ensures multiset(Filter(MetIn(prefix, before + [d]), assets))[x]
                  == multiset(Filter(MetIn(prefix, before), assets))[x] + multiset(Filter(StartsWith(d), assets))[x]
    {
      FilterCount(MetIn(prefix, before + [d]), assets, x);
      FilterCount(MetIn(prefix, before), assets, x);
      FilterCount(StartsWith(d), assets, x);
      DirectoryOwnsItsPaths(prefix, d, a.path, x.path);
      OneDirectoryOnly(prefix, before, d, x.path);
    }
  }

  lemma {:induction false} OneDirectoryOnly(prefix: string, directories: seq<string>, d: string, path: string)
    requires Distinct(directories + [d])
    ensures Met(prefix, directories + [d], path) <==> Met(prefix, directories, path) || IsIn(prefix, d, path)
    ensures !(Met(prefix, directories, path) && IsIn(prefix, d, path))
  {
    var more := directories + [d];
    assert more[|directories|] == d;
    assert forall i :: 0 <= i < |directories| ==> more[i] == directories[i];
    if Met(prefix, directories, path) && !IsFileAt(prefix, path) {
      var i :| 0 <= i < |directories| && IsIn(prefix, directories[i], path);
      assert more[i] != more[|directories|];
      assert IsIn(prefix, more[i], path);
    }
  }

  /** Lists a level and descends into each directory it returns. For any paths at all this ends, and it
      meets every asset below the prefix exactly once. */
  method Descend(assets: seq<Asset>, prefix: string, locale: (string, string) -> bool) returns (met: seq<Asset>)
    ensures multiset(met) == multiset(Filter(StartsWith(prefix), assets))
    decreases if |prefix| <= MaxLength(assets) then 1 + MaxLength(assets) - |prefix| else 0
  {
    hide IsIn, IsFileAt, Filter, MaxLength, SortBy, MetIn, StartsWith;
    var directories, files := ListDirectory(assets, prefix, locale);
    SortPermutes(ByPath(locale), Filter(FileAt(prefix), assets));
    met := files;
    FilesAreMet(assets, prefix);
    for i := 0 to |directories|
      invariant multiset(met) == multiset(Filter(MetIn(prefix, directories[..i]), assets))
    {
      var d := directories[i];
      assert d in directories;
      ghost var a :| a in assets && IsIn(prefix, d, a.path);
      DirectoryOwnsItsPaths(prefix, d, a.path, a.path);
      WithinMaxLength(assets, a);
      var below := Descend(assets, d, locale);
      OneMoreDirectory(assets, prefix, directories, i, a);
      met := met + below;
    }
    assert directories[..|directories|] == directories;
    AllMet(prefix, directories, assets);
  }

  lemma {:induction false} FilesAreMet(assets: seq<Asset>, prefix: string)
    ensures Filter(MetIn(prefix, []), assets) == Filter(FileAt(prefix), assets)
  {
    FilterAgrees(MetIn(prefix, []), FileAt(prefix), assets);
  }

  lemma {:induction false} AllMet(prefix: string, directories: seq<string>, assets: seq<Asset>)
    requires forall d :: d in directories <==> exists x :: x in assets && IsIn(prefix, d, x.path)
    ensures Filter(MetIn(prefix, directories), assets) == Filter(StartsWith(prefix), assets)
  {
    forall a | a in assets ensures MetIn(prefix, directories)(a) == StartsWith(prefix)(a) {
      if prefix <= a.path && !IsFileAt(prefix, a.path) {
        var d := NextDirectory(prefix, a.path);
        assert IsIn(prefix, d, a.path);
        assert d in directories;
        var i :| 0 <= i < |directories| && directories[i] == d;
        assert IsIn(prefix, directories[i], a.path);
      }
    }
    FilterAgrees(MetIn(prefix, directories), StartsWith(prefix), assets);
  }

  /** From the empty prefix, that is every asset of the repository. */
  method DescendAll(assets: seq<Asset>, locale: (string, string) -> bool) returns (met: seq<Asset>)
    ensures multiset(met) == multiset(assets)
  {
    met := Descend(assets, "", locale);
    FilterAll(StartsWith(""), assets);
  }

  // ----- One level written out -----

  /** A file of the level: nothing but a name behind the prefix. */
  lemma {:induction false} FileAtMeans(prefix: string, path: string)
    ensures IsFileAt(prefix, path) <==> exists name :: path == prefix + name && '/' !in name
  {
    if IsFileAt(prefix, path) {
      var name := path[|prefix|..];
      assert path == prefix + name;
    }
    if name :| path == prefix + name && '/' !in name {
      assert path[|prefix|..] == name;
    }
  }

  lemma {:induction false} FirstSlashIs(s: string, i: nat)
    requires i < |s| && s[i] == '/' && '/' !in s[..i]
    ensures FirstSlash(s) == i
  {
    forall j | 0 <= j < i ensures s[j] != '/' {
      assert s[j] == s[..i][j];
    }
  }

  /** A path below a directory of the level, which is the prefix and one more part. */
  ghost predicate IsBelow(prefix: string, directory: string, path: string) {
    exists part, rest :: '/' !in part && directory == prefix + part + "/" && path == directory + rest
  }

  lemma {:induction false} IsInMeans(prefix: string, directory: string, path: string)
    ensures IsIn(prefix, directory, path) <==> IsBelow(prefix, directory, path)
  {
    hide IsFileAt, NextDirectory;
    if IsIn(prefix, directory, path) {
      NextDirectoryIsBelow(prefix, path);
    }
    if IsBelow(prefix, directory, path) {
      var part, rest :| '/' !in part && directory == prefix + part + "/" && path == directory + rest;
      BelowIsIn(prefix, part, rest);
    }
  }

  lemma {:induction false} NextDirectoryIsBelow(prefix: string, path: string)
    requires prefix <= path && !IsFileAt(prefix, path)
    ensures IsBelow(prefix, NextDirectory(prefix, path), path)
  {
    var tail, i := path[|prefix|..], FirstSlash(path[|prefix|..]);
    var part, rest := tail[..i], tail[i + 1..];
    assert tail[..i + 1] == part + "/";
    assert NextDirectory(prefix, path) == prefix + part + "/";
    assert path == prefix + part + "/" + rest;
  }

  lemma {:induction false} BelowIsIn(prefix: string, part: string, rest: string)
    requires '/' !in part
    ensures IsIn(prefix, prefix + part + "/", prefix + part + "/" + rest)
  {
    var path, tail := prefix + part + "/" + rest, part + "/" + rest;
    assert path[|prefix|..] == tail && prefix <= path;
    assert tail[|part|] == '/' && tail[..|part|] == part;
    FirstSlashIs(tail, |part|);
    assert tail[..|part| + 1] == part + "/";
    assert prefix + (part + "/") == prefix + part + "/";
  }

  /** The files of a level come in the order of the locale. */
  lemma {:induction false} FilesInOrder(assets: seq<Asset>, prefix: string, locale: (string, string) -> bool)
    requires Total(locale) && Transitive(locale)
    ensures var files := SortBy(ByPath(locale), Filter(FileAt(prefix), assets));
            && (forall i, j :: 0 <= i < j < |files| ==> locale(files[i].path, files[j].path))
            && multiset(files) == multiset(Filter(FileAt(prefix), assets))
  {
    hide SortBy, Filter;
    forall a, b ensures ByPath(locale)(a, b) || ByPath(locale)(b, a) {
      assert locale(a.path, b.path) || locale(b.path, a.path);
    }
    forall a, b, c | ByPath(locale)(a, b) && ByPath(locale)(b, c) ensures ByPath(locale)(a, c) {
      assert locale(a.path, b.path) && locale(b.path, c.path);
    }
    SortSorts(ByPath(locale), Filter(FileAt(prefix), assets));
    SortPermutes(ByPath(locale), Filter(FileAt(prefix), assets));
  }
}
