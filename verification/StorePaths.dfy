/** Asset paths: normalisation, what a target selects, and where a move or rename puts it. */
module StorePaths {
  import opened Seqs

  datatype Asset = Asset(path: string, size: int, hash: string, contentType: string, updatedAt: string)

  function DropLeadingSlashes(s: string): string {
    if s != [] && s[0] == '/' then DropLeadingSlashes(s[1..]) else s
  }

  function DropTrailingSlashes(s: string): string {
    if s != [] && s[|s| - 1] == '/' then DropTrailingSlashes(s[..|s| - 1]) else s
  }

  /** The path without slashes at its ends. */
  function Normalized(path: string): string { DropTrailingSlashes(DropLeadingSlashes(path)) }

  predicate Under(path: string, dir: string) { dir + "/" <= path }

  predicate AtOrUnder(path: string, dir: string) { path == dir || Under(path, dir) }

  /** The text from index n on; empty beyond the end. */
  function Drop(s: string, n: nat): string { if n <= |s| then s[n..] else "" }

  function BaseName(path: string): string {
    if path == [] || path[|path| - 1] == '/' then "" else BaseName(path[..|path| - 1]) + [path[|path| - 1]]
  }

  function Paths(assets: seq<Asset>): (r: seq<string>)
    ensures |r| == |assets| && forall i :: 0 <= i < |assets| ==> r[i] == assets[i].path
  {
    Map((a: Asset) => a.path, assets)
  }

  ghost predicate DistinctPaths(assets: seq<Asset>) { Distinct(Paths(assets)) }

  predicate OnlySlashes(s: string) { forall i :: 0 <= i < |s| ==> s[i] == '/' }

  lemma {:induction false} LeadingDropped(s: string) returns (lead: string)
    ensures OnlySlashes(lead) && s == lead + DropLeadingSlashes(s)
    ensures DropLeadingSlashes(s) == "" || DropLeadingSlashes(s)[0] != '/'
  {
    lead := "";
    if s != [] && s[0] == '/' {
      var rest := LeadingDropped(s[1..]);
      lead := "/" + rest;
    }
  }

  lemma {:induction false} TrailingDropped(s: string) returns (trail: string)
    ensures OnlySlashes(trail) && s == DropTrailingSlashes(s) + trail
    ensures DropTrailingSlashes(s) == "" || DropTrailingSlashes(s)[|DropTrailingSlashes(s)| - 1] != '/'
  {
    trail := "";
    if s != [] && s[|s| - 1] == '/' {
      var rest := TrailingDropped(s[..|s| - 1]);
      trail := rest + "/";
    }
  }

  /** Normalising takes away slashes at the ends, all of them, and nothing else. */
  lemma {:induction false} NormalizedTrims(path: string) returns (lead: string, trail: string)
    ensures var n := Normalized(path);
            && OnlySlashes(lead) && OnlySlashes(trail) && path == lead + n + trail
            && (n != "" ==> n[0] != '/' && n[|n| - 1] != '/')
  {
    lead := LeadingDropped(path);
    trail := TrailingDropped(DropLeadingSlashes(path));
  }

  // ----- Targets -----

  datatype TargetType = RawPath | MavenVersion | MavenArtifact | NpmPackage | NpmVersion | AssetPath

  datatype Target = Target(kind: TargetType, path: string)

  predicate Selects(t: Target, path: string) {
    var p := Normalized(t.path);
    p != "" && (path == p || (!t.kind.AssetPath? && Under(path, p)))
  }

  function SelectedBy(t: Target): string -> bool { (p: string) => Selects(t, p) }

  function TargetPaths(assets: seq<Asset>, t: Target): seq<string> { Filter(SelectedBy(t), Paths(assets)) }

  predicate SelectedByAny(targets: seq<Target>, path: string) {
    exists i :: 0 <= i < |targets| && Selects(targets[i], path)
  }

  // ----- Where a selected asset goes -----

  datatype Action = Delete | Move | Rename

  predicate IsDirectory(assets: seq<Asset>, t: Target) {
    exists p :: p in TargetPaths(assets, t) && Under(p, Normalized(t.path))
  }

  function NextPath(action: Action, source: string, directory: bool, destination: string, path: string): string {
    var rest := Drop(path, |source| + 1);
    if action.Rename? then
      if directory then destination + "/" + rest else destination
    else
      if directory then destination + "/" + source + "/" + rest else destination + "/" + BaseName(path)
  }

  /** The replacements of all targets; a later target overrides an earlier one. */
  function Plan(assets: seq<Asset>, action: Action, targets: seq<Target>, destination: string): (m: map<string, string>)
    ensures forall p :: p in m <==> p in Paths(assets) && SelectedByAny(targets, p)
    ensures destination != "" ==> forall p :: p in m ==> m[p] != ""
  {
    if targets == [] then map[]
    else
      var init, t := targets[..|targets| - 1], targets[|targets| - 1];
      assert forall p :: SelectedByAny(targets, p) <==> SelectedByAny(init, p) || Selects(t, p);
      Plan(assets, action, init, destination) + TargetPlan(assets, action, t, destination)
  }

  function TargetPlan(assets: seq<Asset>, action: Action, t: Target, destination: string): (m: map<string, string>)
    ensures forall p :: p in m <==> p in Paths(assets) && Selects(t, p)
    ensures destination != "" ==> forall p :: p in m ==> m[p] != ""
  {
    map p | p in TargetPaths(assets, t) :: NextPath(action, Normalized(t.path), IsDirectory(assets, t), destination, p)
  }

  /** The target at an index is the last to select the path, and next is where it sends the path. */
  ghost predicate LastToSelect(
      targets: seq<Target>, i: nat, assets: seq<Asset>, action: Action, destination: string, p: string, next: string)
  {
    && i < |targets| && Selects(targets[i], p) && (forall j :: i < j < |targets| ==> !Selects(targets[j], p))
    && next == NextPath(action, Normalized(targets[i].path), IsDirectory(assets, targets[i]), destination, p)
  }

  lemma {:induction false} OneMoreTarget(
      targets: seq<Target>, i: nat, assets: seq<Asset>, action: Action, destination: string, p: string, next: string)
    requires targets != [] && LastToSelect(targets[..|targets| - 1], i, assets, action, destination, p, next)
    requires !Selects(targets[|targets| - 1], p)
    ensures LastToSelect(targets, i, assets, action, destination, p, next)
  {
    hide Selects, NextPath, Normalized, IsDirectory;
    var init := targets[..|targets| - 1];
    assert init[i] == targets[i];
    forall j | i < j < |targets| ensures !Selects(targets[j], p) {
      assert j < |targets| - 1 ==> init[j] == targets[j];
    }
  }

  /** A path follows the last of the targets that select it. */
  lemma {:induction false} PlanFollowsLastTarget(
      assets: seq<Asset>, action: Action, targets: seq<Target>, destination: string, p: string)
    returns (i: nat)
    requires p in Plan(assets, action, targets, destination)
    ensures LastToSelect(targets, i, assets, action, destination, p, Plan(assets, action, targets, destination)[p])
  {
    assert targets != [];
    var n := |targets| - 1;
    PlanLast(assets, action, targets, destination);
    TargetPlanAt(assets, action, targets[n], destination, p);
    hide Selects, NextPath, Normalized, IsDirectory, Plan, TargetPlan;
    if Selects(targets[n], p) {
      i := n;
    } else {
      i := PlanFollowsLastTarget(assets, action, targets[..n], destination, p);
      OneMoreTarget(targets, i, assets, action, destination, p, Plan(assets, action, targets, destination)[p]);
    }
  }

  lemma {:induction false} PlanLast(assets: seq<Asset>, action: Action, targets: seq<Target>, destination: string)
    requires targets != []
    ensures Plan(assets, action, targets, destination)
         == Plan(assets, action, targets[..|targets| - 1], destination)
           + TargetPlan(assets, action, targets[|targets| - 1], destination)
  {}

  lemma {:induction false} TargetPlanAt(assets: seq<Asset>, action: Action, t: Target, destination: string, p: string)
    ensures p in TargetPlan(assets, action, t, destination) <==> p in Paths(assets) && Selects(t, p)
    ensures p in TargetPlan(assets, action, t, destination) ==>
      TargetPlan(assets, action, t, destination)[p]
        == NextPath(action, Normalized(t.path), IsDirectory(assets, t), destination, p)
  {
    hide NextPath, Normalized, IsDirectory, Paths, Filter;
  }

  /** The base name is the text behind the last slash. */
  lemma {:induction false} BaseNameIsLastPart(path: string)
    ensures var b := BaseName(path);
            && |b| <= |path| && path == path[..|path| - |b|] + b && '/' !in b
            && (|b| < |path| ==> path[|path| - |b| - 1] == '/')
  {
    if path != [] && path[|path| - 1] != '/' {
      var init, last := path[..|path| - 1], path[|path| - 1];
      BaseNameIsLastPart(init);
      assert BaseName(path) == BaseName(init) + [last] && path == init + [last];
    }
  }

  /** A move keeps the whole path below a directory target, and the base name of a single file; only an asset
      exactly at the path of a directory target ends in a slash. */
  lemma {:induction false} MoveKeepsNames(source: string, directory: bool, destination: string, path: string)
    requires AtOrUnder(path, source)
    ensures var next := NextPath(Move, source, directory, destination, path);
            if !directory then next == destination + "/" + BaseName(path)
            else if Under(path, source) then next == destination + "/" + path
            else next == destination + "/" + path + "/"
  {
    if directory && Under(path, source) {
      assert path == source + "/" + path[|source| + 1..];
      assert destination + "/" + source + "/" + path[|source| + 1..]
          == destination + "/" + (source + "/" + path[|source| + 1..]);
    }
  }

  // ----- Replacing paths -----

  function Replaced(assets: seq<Asset>, plan: map<string, string>, now: string): (r: seq<Asset>)
    ensures |r| == |assets|
    ensures forall i :: 0 <= i < |assets| ==>
      r[i] == if assets[i].path in plan then assets[i].(path := plan[assets[i].path], updatedAt := now) else assets[i]
  {
    seq(|assets|, i requires 0 <= i < |assets| =>
      if assets[i].path in plan then assets[i].(path := plan[assets[i].path], updatedAt := now) else assets[i])
  }

  /** No two assets get one path, and none gets the path of an asset that stays. */
  predicate PlanIsFree(assets: seq<Asset>, plan: map<string, string>) {
    && |plan.Values| == |plan.Keys|
    && forall p :: p in plan ==> plan[p] !in Paths(assets) || plan[p] in plan
  }

  ghost predicate NoValueTwice(plan: map<string, string>) {
    forall p, q :: p in plan && q in plan && plan[p] == plan[q] ==> p == q
  }

  lemma {:induction false} WithoutKey(plan: map<string, string>, p: string)
    requires p in plan
    ensures plan.Keys == (plan - {p}).Keys + {p} && |plan.Keys| == |(plan - {p}).Keys| + 1
    ensures plan.Values == (plan - {p}).Values + {plan[p]}
  {
    var rest := plan - {p};
    assert plan.Keys == rest.Keys + {p};
    forall v | v in plan.Values ensures v in rest.Values + {plan[p]} {
      var q :| q in plan && plan[q] == v;
      assert q != p ==> q in rest && rest[q] == v;
    }
  }

  lemma {:induction false} ValuesAreFew(plan: map<string, string>)
    ensures |plan.Values| <= |plan.Keys|
  {
    if plan.Keys == {} {
      assert plan.Values == {};
    } else {
      var p :| p in plan;
      WithoutKey(plan, p);
      ValuesAreFew(plan - {p});
    }
  }

  lemma {:induction false} NoValueTwiceCount(plan: map<string, string>)
    requires NoValueTwice(plan)
    ensures |plan.Values| == |plan.Keys|
  {
    if plan.Keys == {} {
      assert plan.Values == {};
    } else {
      var p :| p in plan;
      WithoutKey(plan, p);
      NoValueTwiceCount(plan - {p});
      assert plan[p] !in (plan - {p}).Values;
    }
  }

  /** As many values as keys means no value twice. */
  lemma {:induction false} ValuesCountIffInjective(plan: map<string, string>)
    ensures |plan.Values| == |plan.Keys| <==> NoValueTwice(plan)
  {
    if NoValueTwice(plan) {
      NoValueTwiceCount(plan);
    } else {
      var p, q :| p in plan && q in plan && plan[p] == plan[q] && p != q;
      WithoutKey(plan, p);
      ValuesAreFew(plan - {p});
      assert q in plan - {p} && (plan - {p})[q] == plan[p];
      assert plan.Values == (plan - {p}).Values;
    }
  }

  lemma {:induction false} ReplacedPathAt(assets: seq<Asset>, plan: map<string, string>, now: string, p: string)
    returns (i: nat)
    requires p in Paths(assets)
    ensures i < |assets| && Paths(assets)[i] == p && |Paths(Replaced(assets, plan, now))| == |assets|
    ensures Paths(Replaced(assets, plan, now))[i] == if p in plan then plan[p] else p
  {
    i :| 0 <= i < |assets| && Paths(assets)[i] == p;
  }

  /** A plan that takes two assets to one path is not free. */
  lemma {:induction false} FreeIfReplacedDistinct(assets: seq<Asset>, plan: map<string, string>, now: string)
    requires DistinctPaths(Replaced(assets, plan, now)) && forall p :: p in plan ==> p in Paths(assets)
    ensures PlanIsFree(assets, plan)
  {
    hide Replaced, Paths;
    ValuesCountIffInjective(plan);
    forall p, q | p in plan && q in plan && plan[p] == plan[q] ensures p == q {
      var i := ReplacedPathAt(assets, plan, now, p);
      var j := ReplacedPathAt(assets, plan, now, q);
    }
    forall p | p in plan && plan[p] in Paths(assets) ensures plan[p] in plan {
      var i := ReplacedPathAt(assets, plan, now, p);
      var j := ReplacedPathAt(assets, plan, now, plan[p]);
    }
  }

  /** A free plan keeps paths distinct. */
  lemma {:induction false} ReplacedDistinct(assets: seq<Asset>, plan: map<string, string>, now: string)
    requires DistinctPaths(assets) && PlanIsFree(assets, plan)
    ensures DistinctPaths(Replaced(assets, plan, now))
  {
    ValuesCountIffInjective(plan);
    var before, after := Paths(assets), Paths(Replaced(assets, plan, now));
    forall i, j | 0 <= i < j < |after| ensures after[i] != after[j] {
      assert before[i] != before[j] && before[i] in before && before[j] in before;
    }
  }
}
