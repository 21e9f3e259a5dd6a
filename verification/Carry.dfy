/** Carrying the current package list forward under a set of installed targets. */
module Carry {
  import opened Common
  import opened Manifest
  import Diff
  import GenDb

  datatype Target = Target(name: string, version: string, storePath: Option<string>)

  function NewPkg(t: Target): Pkg {
    Pkg(t.name, t.version, t.storePath, "imperative")
  }

  /** The package each name stands for; a later entry of the list wins. */
  function Meaning(pkgs: seq<Pkg>): map<string, Pkg> {
    if pkgs == [] then map[] else Meaning(pkgs[..|pkgs| - 1])[pkgs[|pkgs| - 1].name := pkgs[|pkgs| - 1]]
  }

  function Overrides(targets: seq<Target>): map<string, Pkg> {
    if targets == [] then map[]
    else
      var t := targets[|targets| - 1];
      Overrides(targets[..|targets| - 1])[t.name := NewPkg(t)]
  }

  /** The list without its first entry of this name. */
  function Without(pkgs: seq<Pkg>, name: string): seq<Pkg> {
    if pkgs == [] then []
    else
      var init, p := pkgs[..|pkgs| - 1], pkgs[|pkgs| - 1];
      if name in Meaning(init) then Without(init, name) + [p]
      else if p.name == name then init
      else pkgs
  }

  function Merge(pkgs: seq<Pkg>, targets: seq<Target>): seq<Pkg> {
    if targets == [] then pkgs
    else
      var t := targets[|targets| - 1];
      Without(Merge(pkgs, targets[..|targets| - 1]), t.name) + [NewPkg(t)]
  }

  predicate Distinct(pkgs: seq<Pkg>) {
    pkgs == [] || (Distinct(pkgs[..|pkgs| - 1]) && pkgs[|pkgs| - 1].name !in Meaning(pkgs[..|pkgs| - 1]))
  }

  lemma Snoc(pkgs: seq<Pkg>, p: Pkg)
    ensures Meaning(pkgs + [p]) == Meaning(pkgs)[p.name := p]
    ensures Distinct(pkgs + [p]) <==> Distinct(pkgs) && p.name !in Meaning(pkgs)
  {
    assert (pkgs + [p])[..|pkgs|] == pkgs;
  }

  lemma {:induction false} WithoutKeepsTheOthers(pkgs: seq<Pkg>, name: string)
    ensures forall n :: n != name ==> (n in Meaning(Without(pkgs, name)) <==> n in Meaning(pkgs))
    ensures forall n :: n != name && n in Meaning(pkgs) ==> Meaning(Without(pkgs, name))[n] == Meaning(pkgs)[n]
    ensures Distinct(pkgs) ==> Distinct(Without(pkgs, name)) && name !in Meaning(Without(pkgs, name))
  {
    if pkgs != [] {
      var init, p := pkgs[..|pkgs| - 1], pkgs[|pkgs| - 1];
      WithoutKeepsTheOthers(init, name);
      Snoc(Without(init, name), p);
    }
  }

  /** The merged list means the old list overridden by the targets, and repeats no name. */
  lemma {:induction false} MergeOverrides(pkgs: seq<Pkg>, targets: seq<Target>)
    ensures Meaning(Merge(pkgs, targets)) == Meaning(pkgs) + Overrides(targets)
    ensures Distinct(pkgs) ==> Distinct(Merge(pkgs, targets))
  {
    if targets != [] {
      var init, t := targets[..|targets| - 1], targets[|targets| - 1];
      var merged := Merge(pkgs, init);
      MergeOverrides(pkgs, init);
      WithoutKeepsTheOthers(merged, t.name);
      Snoc(Without(merged, t.name), NewPkg(t));
      OneMore(Meaning(pkgs), Overrides(init), Meaning(Without(merged, t.name)), t.name, NewPkg(t));
    } else {
      assert Meaning(pkgs) + map[] == Meaning(pkgs);
    }
  }

  lemma {:induction false} WithoutHolds(pkgs: seq<Pkg>, name: string)
    ensures forall p <- pkgs :: p.name != name ==> p in Without(pkgs, name)
    ensures forall p <- Without(pkgs, name) :: p in pkgs
  {
    if pkgs != [] {
      var init, last := pkgs[..|pkgs| - 1], pkgs[|pkgs| - 1];
      WithoutHolds(init, name);
      assert pkgs == init + [last];
    }
  }

  /** The target at `i` is the last one of its name. */
  predicate LastTarget(targets: seq<Target>, i: nat)
    requires i < |targets|
  {
    forall j :: i < j < |targets| ==> targets[j].name != targets[i].name
  }

  /** What is on the merged list: each target's package as it was installed, and what no target names. */
  lemma {:induction false} MergeHolds(pkgs: seq<Pkg>, targets: seq<Target>)
    ensures forall i: nat :: i < |targets| && LastTarget(targets, i) ==>
      Pkg(targets[i].name, targets[i].version, targets[i].storePath, "imperative") in Merge(pkgs, targets)
    ensures forall p <- pkgs :: (forall t <- targets :: t.name != p.name) ==> p in Merge(pkgs, targets)
    ensures forall p <- Merge(pkgs, targets) ::
      p in pkgs || exists t :: t in targets && p == Pkg(t.name, t.version, t.storePath, "imperative")
  {
    if targets != [] {
      var n := |targets| - 1;
      var init, last := targets[..n], targets[n];
      MergeHolds(pkgs, init);
      WithoutHolds(Merge(pkgs, init), last.name);
      assert targets == init + [last];
      forall i: nat | i < n && LastTarget(targets, i)
        ensures LastTarget(init, i) && targets[n].name != targets[i].name
      {
      }
    }
  }

  lemma OneMore(m: map<string, Pkg>, over: map<string, Pkg>, rest: map<string, Pkg>, name: string, p: Pkg)
    requires forall n :: n != name ==> (n in rest <==> n in m + over)
    requires forall n :: n != name && n in m + over ==> rest[n] == (m + over)[n]
    ensures rest[name := p] == m + over[name := p]
  {
  }

  /** Distinct package names are what the diff asks for. */
  lemma {:induction false} DistinctEntries(pkgs: seq<Pkg>)
    ensures Diff.EntryNames(GenDb.Entries(pkgs)) == Meaning(pkgs).Keys
    ensures Diff.DistinctNames(GenDb.Entries(pkgs)) <==> Distinct(pkgs)
  {
    if pkgs != [] {
      var init := pkgs[..|pkgs| - 1];
      DistinctEntries(init);
      assert GenDb.Entries(pkgs)[..|init|] == GenDb.Entries(init);
    }
  }

  // ---- the loops ----

  lemma {:induction false} WithoutAt(pkgs: seq<Pkg>, i: nat, name: string)
    requires i < |pkgs| && pkgs[i].name == name && name !in Meaning(pkgs[..i])
    ensures Without(pkgs, name) == pkgs[..i] + pkgs[i + 1..]
    ensures name in Meaning(pkgs)
  {
    var init := pkgs[..|pkgs| - 1];
    if i < |init| {
      assert init[..i] == pkgs[..i];
      WithoutAt(init, i, name);
      var p := pkgs[|pkgs| - 1];
      assert pkgs == init + [p];
      assert (init + [p])[i + 1..] == init[i + 1..] + [p];
    } else {
      assert pkgs[i + 1..] == [];
      assert pkgs[..i] == init;
    }
  }

  method RemoveFirst(pkgs: seq<Pkg>, name: string) returns (rest: seq<Pkg>, replaced: bool)
    ensures rest == Without(pkgs, name)
    ensures replaced <==> name in Meaning(pkgs)
  {
    for i := 0 to |pkgs|
      invariant name !in Meaning(pkgs[..i])
    {
      if pkgs[i].name == name {
        WithoutAt(pkgs, i, name);
        return pkgs[..i] + pkgs[i + 1..], true;
      }
      assert pkgs[..i + 1][..i] == pkgs[..i];
    }
    assert pkgs[..|pkgs|] == pkgs;
    WithoutAbsent(pkgs, name);
    return pkgs, false;
  }

  lemma WithoutAbsent(pkgs: seq<Pkg>, name: string)
    requires name !in Meaning(pkgs)
    ensures Without(pkgs, name) == pkgs
  {
    if pkgs != [] {
      var init := pkgs[..|pkgs| - 1];
      assert name !in Meaning(init);
    }
  }

  method CarryForward(current: seq<Pkg>, targets: seq<Target>) returns (pkgs: seq<Pkg>)
    ensures pkgs == Merge(current, targets)
    ensures Meaning(pkgs) == Meaning(current) + Overrides(targets)
    ensures Distinct(current) ==> Distinct(pkgs)
    // each target as it was installed, what no target names, and nothing else
    ensures forall i: nat :: i < |targets| && LastTarget(targets, i) ==>
      Pkg(targets[i].name, targets[i].version, targets[i].storePath, "imperative") in pkgs
    ensures forall p <- current :: (forall t <- targets :: t.name != p.name) ==> p in pkgs
    ensures forall p <- pkgs ::
      p in current || exists t :: t in targets && p == Pkg(t.name, t.version, t.storePath, "imperative")
  {
    pkgs := current;
    for i := 0 to |targets|
      invariant pkgs == Merge(current, targets[..i])
    {
      assert targets[..i + 1][..i] == targets[..i];
      var rest, _ := RemoveFirst(pkgs, targets[i].name);
      pkgs := rest + [NewPkg(targets[i])];
    }
    assert targets[..|targets|] == targets;
    MergeOverrides(current, targets);
    MergeHolds(current, targets);
  }
}
