/** What the resolver's plan leaves out, and when its build order is right: the exact conditions, and inputs on which
    each fails. */
module PlanLaws {
  import opened Common
  import opened BuildOrder
  import opened Closure
  import opened DepGraph
  import opened Resolver
  import TopoSort

  // ---- names that are in none of the lists ----

  /** What the plan has to account for: the targets, and all that the built packages need. */
  function Wanted(need: Needs, targets: set<string>, r: Result): set<string> {
    targets + DepSet(need, NameSet(r.build))
  }

  lemma {:induction false} BuiltNeedsAreListed(need: Needs, targets: set<string>, n: nat)
    ensures targets + DepSet(need, BuildAt(need, targets, n)) <=
      BuildAt(need, targets, n) + QueueAt(need, targets, n) + InstallAt(need, targets, n) + (targets - need.Keys)
    ensures BuildAt(need, targets, n) <= need.Keys && InstallAt(need, targets, n) !! (targets + need.Keys)
    ensures n > 0 ==> QueueAt(need, targets, n) <= need.Keys
  {
    NeedsAccountedFor(need, targets, n);
    if n > 0 {
      WithinGrows(need, targets, 0, n - 1);
      assert targets * need.Keys <= Within(need, targets, n - 1);
    }
  }

  /** Exactly these are in none of the three lists: targets the AUR does not have, and what was still queued when a
      batch failed. */
  lemma {:induction false} DroppedNames(need: Needs, targets: set<string>, failAt: Option<nat>, r: Result)
    requires Collected(need, targets, failAt, r)
    ensures Wanted(need, targets, r) - Listed(r) == (targets - need.Keys) + LostQueue(need, targets, failAt)
  {
    var n := RoundsRun(failAt);
    BuiltNeedsAreListed(need, targets, n);
    ListedAreWanted(need, targets, n);
    NeedsAccountedFor(need, targets, n);
  }

  /** So everything wanted is listed exactly if the AUR has every target and no batch failed with names still queued. */
  lemma {:induction false} AllListedIff(need: Needs, targets: set<string>, failAt: Option<nat>, r: Result)
    requires Collected(need, targets, failAt, r)
    ensures Wanted(need, targets, r) <= Listed(r) <==> targets <= need.Keys && LostQueue(need, targets, failAt) == {}
  {
    DroppedNames(need, targets, failAt, r);
    var unlisted := Wanted(need, targets, r) - Listed(r);
    assert Wanted(need, targets, r) <= Listed(r) <==> unlisted == {};
    forall x | x in targets && targets - need.Keys == {} ensures x in need.Keys {
      assert x !in targets - need.Keys;
    }
  }

  /** Package a needs b, and the second batch, which asks for b, fails: b is nowhere. */
  lemma {:induction false} SecondBatchFails(need: Needs, r: Result)
    requires need == map["a" := {"b"}, "b" := {}] && Collected(need, {"a"}, Some(1), r)
    ensures NameSet(r.build) == {"a"} && "b" in need["a"] && "b" !in Listed(r)
  {
    assert RoundsRun(Some(1)) == 1;
    assert Within(need, {"a"}, 0) == {"a"};
    assert BuildAt(need, {"a"}, 1) == {"a"};
  }

  /** A target the AUR does not have, asked for alone, leaves an empty plan: it is not even missing. */
  lemma {:induction false} UnknownTarget(need: Needs, x: string, r: Result)
    requires x !in need && Collected(need, {x}, None, r)
    ensures Listed(r) == {}
  {
    assert {x} * need.Keys == {};
    assert DepSet(need, {}) == {};
    assert Within(need, {x}, 0) == {};
    assert Within(need, {x}, 1) == {};
    WithinStable(need, {x}, 0, MAX_ITERATIONS - 1);
    WithinStable(need, {x}, 0, MAX_ITERATIONS);
  }

  // ---- the order of the sort as written ----

  lemma {:induction false} OneBuiltInOrder(need: Needs, disc: seq<string>, o: seq<string>, t: string)
    requires Elements(disc) == {t} && t in o && t in need && Distinct(o)
    ensures BuiltInOrder(need, disc, o) <==> t !in need[t]
  {
    var i :| 0 <= i < |o| && o[i] == t;
    assert t in Elements(disc) && forall x :: x in disc ==> x in Elements(disc);
    assert t !in o[..i];
  }

  lemma {:induction false} OnlyItself(needs: set<string>, keys: set<string>, t: string)
    ensures t !in needs ==> (needs * keys <= {t} <==> needs !! keys)
  {
    forall x | x in needs && t !in needs && needs * keys <= {t} ensures x !in keys {
      assert x in keys ==> x in needs * keys;
    }
  }

  /** The same on the sets, after `n` rounds. */
  lemma {:induction false} OneTargetOnSets(need: Needs, t: string, n: nat, disc: seq<string>, o: seq<string>,
                                           right: bool)
    requires Elements(disc) == BuildAt(need, {t}, n) && Distinct(o) && (t in disc ==> t in o)
    requires right <==> BuildAt(need, {t}, n) <= {t} && BuiltInOrder(need, disc, o)
    ensures right <==> t !in need || n == 0 || (t !in need[t] && (n == 1 || need[t] !! need.Keys))
  {
    OnlyTargetsIff(need, {t}, n);
    if t !in need || n == 0 {
      assert {t} * need.Keys == {} || n == 0;
      assert DepSet(need, {}) == {};
      TargetsBuilt(need, {t}, n);
      assert forall x :: x in disc ==> x in Elements(disc);
    } else {
      assert {t} * need.Keys == {t} && DepSet(need, {t}) == need[t];
      OnlyItself(need[t], need.Keys, t);
      if BuildAt(need, {t}, n) <= {t} {
        TargetsBuilt(need, {t}, n);
        assert t in Elements(disc);
        OneBuiltInOrder(need, disc, o, t);
      }
    }
  }

  lemma {:induction false} AskedOne(t: string)
    ensures Asked([t]) == [t] && Elements([t]) == {t}
  {
    assert [t][..0] == [] && Asked([]) == [];
  }

  /** One target, as the build command asks: the list is in a right order exactly if the AUR lacks the target, the first
      batch failed, or the target does not need itself and either the second batch failed or it needs nothing from the
      AUR. */
  lemma {:induction false} OneTargetRightIff(aur: Aur, t: string, failAt: Option<nat>, r: Result, disc: seq<string>,
                                             g: seq<Edge>)
    requires Collected(Needed(aur), {t}, failAt, r) && Elements(disc) == NameSet(r.build) && Distinct(disc)
    requires OrderAsWritten(aur, [t], failAt, ActionNames(r.build), disc, g)
    ensures TrueOrder(Needed(aur), ActionNames(r.build)) <==>
      || t !in aur || failAt == Some(0)
      || (t !in DepsOf(aur[t]) && (failAt == Some(1) || DepsOf(aur[t]) !! aur.Keys))
  {
    AskedOne(t);
    NamesAreElements(r.build);
    OneTargetOnSets(Needed(aur), t, RoundsRun(failAt), disc, if HasEdge(g) then disc else [t],
                    TrueOrder(Needed(aur), ActionNames(r.build)));
  }

  /** Target a needs b, and both are in the AUR: b is built after a. */
  lemma {:induction false} OneTargetGoesWrong(aur: Aur, r: Result, disc: seq<string>, g: seq<Edge>)
    requires aur == map["a" := Pkg("a", "1", ["b"], [], []), "b" := Pkg("b", "1", [], [], [])]
    requires Collected(Needed(aur), {"a"}, None, r)
    requires Elements(disc) == NameSet(r.build) && Discovered(aur, {"a"}, disc, g)
    requires OrderAsWritten(aur, ["a"], None, ActionNames(r.build), disc, g)
    ensures ActionNames(r.build) == ["a", "b"] && !TrueOrder(Needed(aur), ActionNames(r.build))
  {
    ABNeeds(aur);
    DependentFirst(aur, r, disc, HasEdge(g));
  }

  lemma {:induction false} DependentFirst(aur: Aur, r: Result, disc: seq<string>, edge: bool)
    requires Needed(aur) == map["a" := {"b"}, "b" := {}] && Collected(Needed(aur), {"a"}, None, r)
    requires Elements(disc) == NameSet(r.build) && Distinct(disc) && InRounds(Needed(aur), {"a"}, disc)
    requires ActionNames(r.build) == if edge then disc else Select(Asked(["a"]), aur.Keys)
    ensures ActionNames(r.build) == ["a", "b"] && !TrueOrder(Needed(aur), ActionNames(r.build))
  {
    ABBuilt(aur, r);
    AskedOne("a");
    NamesAreElements(r.build);
    assert aur.Keys == Needed(aur).Keys;
    ABOrder(Needed(aur), ActionNames(r.build), disc, edge);
  }

  lemma {:induction false} ABBuilt(aur: Aur, r: Result)
    requires Needed(aur) == map["a" := {"b"}, "b" := {}] && Collected(Needed(aur), {"a"}, None, r)
    ensures NameSet(r.build) == {"a", "b"}
  {
    var n := RoundsRun(None);
    ABWithin(Needed(aur), n);
  }

  lemma {:induction false} ABOrder(need: Needs, names: seq<string>, disc: seq<string>, edge: bool)
    requires Distinct(disc) && Elements(disc) == Elements(names) == {"a", "b"} && InRounds(need, {"a"}, disc)
    requires need == map["a" := {"b"}, "b" := {}]
    requires names == if edge then disc else Select(["a"], need.Keys)
    ensures names == ["a", "b"] && !TrueOrder(need, names)
  {
    assert Within(need, {"a"}, 0) == {"a"};
    ABDiscovered(need, disc);
    Selected(["a"], need.Keys);
    assert "b" in Elements(names);
    assert names[0] == "a" && "b" in need[names[0]] && names[1] == "b" && "b" !in names[..0];
  }

  lemma {:induction false} ABNeeds(aur: Aur)
    requires aur == map["a" := Pkg("a", "1", ["b"], [], []), "b" := Pkg("b", "1", [], [], [])]
    ensures DepsOf(aur["a"]) == {"b"} && DepsOf(aur["b"]) == {}
    ensures Needed(aur) == map["a" := {"b"}, "b" := {}]
  {
    assert "b"[1..] == "";
    assert StripDepVersion("b") == "b";
  }

  lemma {:induction false} ABWithin(need: Needs, n: nat)
    requires need == map["a" := {"b"}, "b" := {}] && n > 1
    ensures BuildAt(need, {"a"}, n) == {"a", "b"}
  {
    assert "a" in Within(need, {"a"}, 0) && "b" in need["a"];
    assert "b" in Within(need, {"a"}, 1);
    WithinGrows(need, {"a"}, 0, n - 1);
    WithinGrows(need, {"a"}, 1, n - 1);
    assert Within(need, {"a"}, n - 1) <= need.Keys;
  }

  lemma {:induction false} ABDiscovered(need: Needs, disc: seq<string>)
    requires Distinct(disc) && Elements(disc) == {"a", "b"} && InRounds(need, {"a"}, disc)
    requires Within(need, {"a"}, 0) == {"a"}
    ensures disc == ["a", "b"]
  {
    assert "a" in Elements(disc) && "b" in Elements(disc) && "a" in Within(need, {"a"}, 0);
    var i :| 0 <= i < |disc| && disc[i] == "a";
    var j :| 0 <= j < |disc| && disc[j] == "b";
    assert i < j;
    forall x <- disc ensures x in ["a", "b"] {
      assert x in Elements(disc);
    }
    TopoSort.DistinctFits(disc, ["a", "b"]);
  }
}
