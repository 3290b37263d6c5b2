/** Renaming there and back again. */
module StoreRename {
  import opened Wrappers
  import opened Seqs
  import opened StorePaths
  import opened StoreState

  /** The operation that renames src, a file or a directory, to dst. */
  function Renaming(src: string, dst: string): Operation {
    Operation(Rename, [Target(RawPath, src)], "", dst)
  }

  predicate HasAt(a: seq<Asset>, dir: string) { exists i :: 0 <= i < |a| && a[i].path == dir }

  predicate HasUnder(a: seq<Asset>, dir: string) { exists i :: 0 <= i < |a| && Under(a[i].path, dir) }

  predicate HasAtOrUnder(a: seq<Asset>, dir: string) { exists i :: 0 <= i < |a| && AtOrUnder(a[i].path, dir) }

  /** What renaming does to one path. */
  function Moved(src: string, dst: string, directory: bool, path: string): string {
    if !AtOrUnder(path, src) then path
    else if directory then dst + "/" + Drop(path, |src| + 1)
    else dst
  }

  lemma {:induction false} SelectsAtOrUnder(src: string, path: string)
    requires Normalized(src) != ""
    ensures Selects(Target(RawPath, src), path) <==> AtOrUnder(path, Normalized(src))
    ensures SelectedByAny([Target(RawPath, src)], path) <==> AtOrUnder(path, Normalized(src))
  {
    hide Normalized, Under;
    var ts := [Target(RawPath, src)];
    assert ts[0] == Target(RawPath, src);
  }

  lemma {:induction false} InPaths(a: seq<Asset>, p: string)
    ensures p in Paths(a) <==> exists i :: 0 <= i < |a| && a[i].path == p
  {
    if p in Paths(a) {
      var i :| 0 <= i < |a| && Paths(a)[i] == p;
      assert a[i].path == p;
    }
    if exists i :: 0 <= i < |a| && a[i].path == p {
      var i :| 0 <= i < |a| && a[i].path == p;
      assert Paths(a)[i] == p;
    }
  }

  lemma {:induction false} DirectoryMeansUnder(a: seq<Asset>, src: string)
    requires Normalized(src) != ""
    ensures IsDirectory(a, Target(RawPath, src)) <==> HasUnder(a, Normalized(src))
  {
    hide Normalized, Under, Paths;
    var t := Target(RawPath, src);
    if IsDirectory(a, t) {
      var p :| p in TargetPaths(a, t) && Under(p, Normalized(src));
      InPaths(a, p);
    }
    if HasUnder(a, Normalized(src)) {
      var i :| 0 <= i < |a| && Under(a[i].path, Normalized(src));
      InPaths(a, a[i].path);
      SelectsAtOrUnder(src, a[i].path);
    }
  }

  lemma {:induction false} RenamePlan(a: seq<Asset>, src: string, dst: string)
    requires Normalized(src) != ""
    ensures var m := Plan(a, Rename, [Target(RawPath, src)], Normalized(dst));
            && (forall p :: p in m <==> p in Paths(a) && AtOrUnder(p, Normalized(src)))
            && forall p :: p in m ==> m[p] == Moved(Normalized(src), Normalized(dst), HasUnder(a, Normalized(src)), p)
  {
    hide Normalized, Under, Paths, TargetPaths, IsDirectory;
    var t := Target(RawPath, src);
    DirectoryMeansUnder(a, src);
    forall p ensures Selects(t, p) <==> AtOrUnder(p, Normalized(src)) {
      SelectsAtOrUnder(src, p);
    }
    assert [t][..0] == [];
    assert Plan(a, Rename, [t], Normalized(dst)) == map[] + TargetPlan(a, Rename, t, Normalized(dst));
  }

  /** When a rename goes ahead, and the paths it leaves. */
  ghost predicate Free(a: seq<Asset>, src: string, dst: string) {
    && HasAtOrUnder(a, src)
    && (forall i, j :: 0 <= i < |a| && 0 <= j < |a| && AtOrUnder(a[i].path, src) && AtOrUnder(a[j].path, src) ==>
          Moved(src, dst, HasUnder(a, src), a[i].path) == Moved(src, dst, HasUnder(a, src), a[j].path) ==>
            a[i].path == a[j].path)
    && forall i, j :: 0 <= i < |a| && 0 <= j < |a| && AtOrUnder(a[i].path, src) && !AtOrUnder(a[j].path, src) ==>
         Moved(src, dst, HasUnder(a, src), a[i].path) != a[j].path
  }

  function SelectedCount(a: seq<Asset>, src: string): nat { |set p | p in Paths(a) && AtOrUnder(p, src)| }

  lemma {:induction false} PlanFreeIffFree(a: seq<Asset>, src: string, dst: string)
    requires Normalized(src) != "" && HasAtOrUnder(a, Normalized(src))
    ensures PlanIsFree(a, Plan(a, Rename, [Target(RawPath, src)], Normalized(dst)))
       <==> Free(a, Normalized(src), Normalized(dst))
  {
    hide Normalized, Under, Paths, Moved, Plan, HasUnder, HasAtOrUnder;
    var m := Plan(a, Rename, [Target(RawPath, src)], Normalized(dst));
    RenamePlan(a, src, dst);
    ValuesCountIffInjective(m);
    forall p ensures p in Paths(a) <==> exists i :: 0 <= i < |a| && a[i].path == p {
      InPaths(a, p);
    }
    assert forall i :: 0 <= i < |a| ==> (a[i].path in m <==> AtOrUnder(a[i].path, Normalized(src)));
    assert forall i :: 0 <= i < |a| ==> a[i].path in Paths(a);
  }

  lemma {:induction false} SelectionOfRename(a: seq<Asset>, src: string)
    requires Normalized(src) != ""
    ensures |Selection(a, [Target(RawPath, src)])| == SelectedCount(a, Normalized(src))
    ensures TargetPaths(a, Target(RawPath, src)) == [] <==> !HasAtOrUnder(a, Normalized(src))
  {
    hide Normalized, Under, Paths;
    var t := Target(RawPath, src);
    forall p ensures SelectedByAny([t], p) == Selects(t, p) == AtOrUnder(p, Normalized(src)) {
      SelectsAtOrUnder(src, p);
    }
    assert Selection(a, [Target(RawPath, src)]) == set p | p in Paths(a) && AtOrUnder(p, Normalized(src));
    var kept := TargetPaths(a, Target(RawPath, src));
    if kept != [] {
      assert kept[0] in kept;
      InPaths(a, kept[0]);
    }
    if HasAtOrUnder(a, Normalized(src)) {
      var i :| 0 <= i < |a| && AtOrUnder(a[i].path, Normalized(src));
      InPaths(a, a[i].path);
      assert a[i].path in kept;
    }
  }

  /** The repository takes renames. */
  predicate IsRawHosted(s: State, name: string) {
    var repo := Find(s.repositories, name);
    repo.Some? && repo.value.kind == "hosted" && repo.value.format == "raw"
  }

  lemma {:induction false} RenameAccepted(s: State, name: string, src: string, dst: string, now: string)
    requires IsRawHosted(s, name) && Normalized(src) != "" && Normalized(dst) != ""
    ensures var (a, r) := (s.AssetsOf(name), Apply(s, name, Renaming(src, dst), now));
            && (r.1.Done?
                <==> Free(a, Normalized(src), Normalized(dst)) && SelectedCount(a, Normalized(src)) <= MAX_TARGETS)
            && (r.1.Done? ==>
                  && r.0.repositories == s.repositories
                  && r.0.AssetsOf(name) == Replaced(a, Plan(a, Rename, [Target(RawPath, src)], Normalized(dst)), now))
  {
    hide Normalized, Under, Moved, Plan, HasUnder, Selection, TargetPaths, PlanIsFree, SelectedCount, Replaced;
    var a, op := s.AssetsOf(name), Renaming(src, dst);
    SelectionOfRename(a, src);
    assert op.targets[0] == Target(RawPath, src);
    assert TargetPaths(a, op.targets[0]) == []
      <==> exists i :: 0 <= i < |op.targets| && TargetPaths(a, op.targets[i]) == [];
    if HasAtOrUnder(a, Normalized(src)) {
      PlanFreeIffFree(a, src, dst);
    }
  }

  lemma {:induction false} RenamedPaths(a: seq<Asset>, b: seq<Asset>, src: string, dst: string, now: string)
    requires Normalized(src) != "" && b == Replaced(a, Plan(a, Rename, [Target(RawPath, src)], Normalized(dst)), now)
    ensures |a| == |b|
    ensures forall i :: 0 <= i < |a| ==>
      b[i].path == Moved(Normalized(src), Normalized(dst), HasUnder(a, Normalized(src)), a[i].path)
  {
    hide Normalized, Moved, Plan, HasUnder;
    RenamePlan(a, src, dst);
    MovedElsewhere(a, src, dst);
    assert forall i :: 0 <= i < |a| ==> Paths(a)[i] == a[i].path;
  }

  lemma {:induction false} MovedElsewhere(a: seq<Asset>, src: string, dst: string)
    ensures forall p :: p in Paths(a) && !AtOrUnder(p, Normalized(src)) ==>
              Moved(Normalized(src), Normalized(dst), HasUnder(a, Normalized(src)), p) == p
  {
    hide Normalized, Under, HasUnder;
  }

  // ----- Path algebra of the round trip -----

  lemma {:induction false} DropOfJoin(dir: string, rest: string)
    ensures Drop(dir + "/" + rest, |dir| + 1) == rest && Under(dir + "/" + rest, dir)
  {
    assert (dir + "/" + rest)[..|dir| + 1] == dir + "/";
  }

  lemma {:induction false} JoinOfDrop(dir: string, path: string)
    requires Under(path, dir)
    ensures dir + "/" + Drop(path, |dir| + 1) == path
  {
    assert path == path[..|dir| + 1] + path[|dir| + 1..];
  }

  lemma {:induction false} DropOfDir(dir: string)
    ensures Drop(dir, |dir| + 1) == "" && !Under(dir, dir)
  {}

  /** Nothing that stays is in the way. */
  ghost predicate DestinationClear(a: seq<Asset>, src: string, dst: string) {
    forall i :: 0 <= i < |a| && AtOrUnder(a[i].path, dst) ==> AtOrUnder(a[i].path, src)
  }

  /** One path there and back. */
  lemma {:induction false} ThereAndBack(a: seq<Asset>, b: seq<Asset>, src: string, dst: string)
    requires DestinationClear(a, src, dst) && !(HasAt(a, src) && HasUnder(a, src)) && HasAtOrUnder(a, src)
    requires |a| == |b| && forall i :: 0 <= i < |a| ==> b[i].path == Moved(src, dst, HasUnder(a, src), a[i].path)
    ensures HasUnder(b, dst) == HasUnder(a, src)
    ensures forall i :: 0 <= i < |a| ==> AtOrUnder(b[i].path, dst) == AtOrUnder(a[i].path, src)
    ensures forall i :: 0 <= i < |a| ==> Moved(dst, src, HasUnder(b, dst), b[i].path) == a[i].path
  {
    var directory := HasUnder(a, src);
    forall i | 0 <= i < |a|
      ensures AtOrUnder(b[i].path, dst) == AtOrUnder(a[i].path, src)
      ensures Under(b[i].path, dst) == (AtOrUnder(a[i].path, src) && directory)
      ensures Moved(dst, src, directory, b[i].path) == a[i].path
    {
      var p := a[i].path;
      if AtOrUnder(p, src) {
        DropOfJoin(dst, Drop(p, |src| + 1));
        DropOfDir(dst);
        if directory {
          JoinOfDrop(src, p);
        }
      }
    }
    if directory {
      var i :| 0 <= i < |a| && Under(a[i].path, src);
      assert Under(b[i].path, dst);
    } else {
      assert forall i :: 0 <= i < |b| ==> !Under(b[i].path, dst);
    }
  }

  /** Where something is in the way, some path does not come back. */
  lemma {:induction false} NotBack(a: seq<Asset>, b: seq<Asset>, src: string, dst: string) returns (k: nat)
    requires src != "" && dst != "" && dst[|dst| - 1] != '/' && src[|src| - 1] != '/'
    requires HasAtOrUnder(a, src) && Free(a, src, dst)
    requires !DestinationClear(a, src, dst) || (HasAt(a, src) && HasUnder(a, src))
    requires |a| == |b| && forall i :: 0 <= i < |a| ==> b[i].path == Moved(src, dst, HasUnder(a, src), a[i].path)
    ensures k < |a| && Moved(dst, src, HasUnder(b, dst), b[k].path) != a[k].path
  {
    var directory := HasUnder(a, src);
    if directory {
      var d :| 0 <= d < |a| && Under(a[d].path, src);
      DropOfJoin(dst, Drop(a[d].path, |src| + 1));
      assert Under(b[d].path, dst);
    }
    if HasAt(a, src) && directory {
      k :| 0 <= k < |a| && a[k].path == src;
      DropOfDir(src);
      DropOfJoin(dst, "");
      assert |Moved(dst, src, HasUnder(b, dst), b[k].path)| > |src|;
    } else {
      var u :| 0 <= u < |a| && AtOrUnder(a[u].path, dst) && !AtOrUnder(a[u].path, src);
      assert b[u].path == a[u].path;
      if directory {
        k := u;
        DropOfJoin(src, Drop(b[u].path, |dst| + 1));
      } else {
        var f :| 0 <= f < |a| && AtOrUnder(a[f].path, src);
        assert a[f].path == src && b[f].path == dst;
        assert a[u].path != dst;
        assert Under(b[u].path, dst);
        k := f;
        assert |Moved(dst, src, HasUnder(b, dst), b[f].path)| > |src|;
      }
    }
  }

  lemma {:induction false} ForthIsFree(a: seq<Asset>, src: string, dst: string)
    requires DestinationClear(a, src, dst) && !(HasAt(a, src) && HasUnder(a, src)) && HasAtOrUnder(a, src)
    ensures Free(a, src, dst)
  {
    var directory := HasUnder(a, src);
    forall i | 0 <= i < |a| && AtOrUnder(a[i].path, src)
      ensures AtOrUnder(Moved(src, dst, directory, a[i].path), dst)
      ensures if directory then a[i].path == src + "/" + Drop(Moved(src, dst, directory, a[i].path), |dst| + 1)
              else a[i].path == src
    {
      DropOfJoin(dst, Drop(a[i].path, |src| + 1));
      if directory {
        JoinOfDrop(src, a[i].path);
      }
    }
  }

  /** Where every asset was moved and comes back, and which ones. */
  ghost predicate ComesBack(a: seq<Asset>, b: seq<Asset>, src: string, dst: string, directory: bool) {
    |a| == |b| && forall i :: 0 <= i < |a| ==>
      && b[i].path == Moved(src, dst, directory, a[i].path) && a[i].path == Moved(dst, src, directory, b[i].path)
      && AtOrUnder(b[i].path, dst) == AtOrUnder(a[i].path, src)
  }

  lemma {:induction false} BackMeetsNone(
      a: seq<Asset>, b: seq<Asset>, src: string, dst: string, directory: bool, i: nat, j: nat)
    requires ComesBack(a, b, src, dst, directory) && i < |b| && j < |b|
    ensures Moved(dst, src, directory, b[i].path) == Moved(dst, src, directory, b[j].path) ==> b[i].path == b[j].path
    ensures AtOrUnder(b[i].path, dst) && !AtOrUnder(b[j].path, dst) ==>
      Moved(dst, src, directory, b[i].path) != b[j].path
  {
    if !AtOrUnder(b[j].path, dst) {
      StaysPut(src, dst, directory, a[j].path);
    }
    hide Moved, AtOrUnder;
  }

  lemma {:induction false} BackIsFree(a: seq<Asset>, b: seq<Asset>, src: string, dst: string)
    requires DestinationClear(a, src, dst) && !(HasAt(a, src) && HasUnder(a, src)) && HasAtOrUnder(a, src)
    requires |a| == |b| && forall i :: 0 <= i < |a| ==> b[i].path == Moved(src, dst, HasUnder(a, src), a[i].path)
    ensures Free(b, dst, src)
  {
    ThereAndBack(a, b, src, dst);
    var back := HasUnder(b, dst);
    hide Moved, AtOrUnder, HasUnder, HasAt, DestinationClear;
    assert ComesBack(a, b, src, dst, back);
    var k :| 0 <= k < |a| && AtOrUnder(a[k].path, src);
    assert AtOrUnder(b[k].path, dst);
    hide ComesBack;
    forall i, j | 0 <= i < |b| && 0 <= j < |b| {
      BackMeetsNone(a, b, src, dst, back, i, j);
    }
  }

  lemma {:induction false} StaysPut(src: string, dst: string, directory: bool, path: string)
    requires !AtOrUnder(path, src)
    ensures Moved(src, dst, directory, path) == path
  {}

  lemma {:induction false} SameCount(a: seq<Asset>, b: seq<Asset>, src: string, dst: string)
    requires DestinationClear(a, src, dst) && !(HasAt(a, src) && HasUnder(a, src)) && HasAtOrUnder(a, src)
    requires |a| == |b| && forall i :: 0 <= i < |a| ==> b[i].path == Moved(src, dst, HasUnder(a, src), a[i].path)
    ensures SelectedCount(b, dst) <= SelectedCount(a, src)
  {
    ThereAndBack(a, b, src, dst);
    hide Moved, AtOrUnder, HasUnder;
    var directory := HasUnder(a, src);
    var there, back := set p | p in Paths(a) && AtOrUnder(p, src), set p | p in Paths(b) && AtOrUnder(p, dst);
    forall q | q in back ensures exists p :: p in there && q == Moved(src, dst, directory, p) {
      InPaths(b, q);
      var i :| 0 <= i < |b| && b[i].path == q;
      InPaths(a, a[i].path);
      assert a[i].path in there;
    }
    ImageIsSmall(there, back, (p: string) => Moved(src, dst, directory, p));
  }

  /** Renaming src to dst and then dst to src: both renames are accepted and every path is back in its place
      if and only if no asset that stays is at or under dst, and src is not both a file and a directory.
      This includes src and dst nested in each other. */
  lemma {:induction false} RenameRoundTrip(s: State, name: string, src: string, dst: string, now: string, later: string)
    requires Valid(s) && IsRawHosted(s, name) && Normalized(src) != "" && Normalized(dst) != ""
    requires HasAtOrUnder(s.AssetsOf(name), Normalized(src))
    requires SelectedCount(s.AssetsOf(name), Normalized(src)) <= MAX_TARGETS
    ensures var a := s.AssetsOf(name);
            var forth := Apply(s, name, Renaming(src, dst), now);
            var back := Apply(forth.0, name, Renaming(dst, src), later);
            (forth.1.Done? && back.1.Done? && Paths(back.0.AssetsOf(name)) == Paths(a) <==>
               && DestinationClear(a, Normalized(src), Normalized(dst))
               && !(HasAt(a, Normalized(src)) && HasUnder(a, Normalized(src))))
  {
    hide Normalized, Under, Moved, HasUnder, HasAt, HasAtOrUnder, Free, DestinationClear, SelectedCount, Apply,
         DistinctPaths, Find;
    var a := s.AssetsOf(name);
    var from, to := Normalized(src), Normalized(dst);
    assert DistinctPaths(a) by { NoAssets(); }
    RenameAccepted(s, name, src, dst, now);
    var forth := Apply(s, name, Renaming(src, dst), now);
    var b := forth.0.AssetsOf(name);
    if DestinationClear(a, from, to) && !(HasAt(a, from) && HasUnder(a, from)) {
      ForthIsFree(a, from, to);
      RenamedPaths(a, b, src, dst, now);
      RenameAccepted(forth.0, name, dst, src, later);
      BackIsFree(a, b, from, to);
      SameCount(a, b, from, to);
      ThereAndBack(a, b, from, to);
      RenamedPaths(b, Apply(forth.0, name, Renaming(dst, src), later).0.AssetsOf(name), dst, src, later);
    } else if forth.1.Done? {
      RenamedPaths(a, b, src, dst, now);
      RenameAccepted(forth.0, name, dst, src, later);
      var _, _ := NormalizedTrims(src);
      var _, _ := NormalizedTrims(dst);
      var k := NotBack(a, b, from, to);
      var back := Apply(forth.0, name, Renaming(dst, src), later);
      if back.1.Done? {
        var c := back.0.AssetsOf(name);
        RenamedPaths(b, c, dst, src, later);
        assert Paths(a)[k] == a[k].path && Paths(c)[k] == c[k].path;
      }
    }
  }
}
