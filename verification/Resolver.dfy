/** The AUR resolver: a worklist closure over dependencies in at most fifty rounds, a graph of
    the edges it met, and the build list put in the sorted order. */
module Resolver {
  import opened Common
  import opened BuildOrder
  import opened Closure
  import opened DepGraph
  import TopoSort

  const MAX_ITERATIONS := 50

  datatype Pkg = Pkg(name: string, version: string, depends: seq<string>, makedepends: seq<string>,
      checkdepends: seq<string>)

  /** What the AUR knows. An answer carries the name it was asked for. */
  type Aur = m: map<string, Pkg> | forall n <- m :: m[n].name == n

  datatype Action = Action(name: string, version: Option<string>, isAur: bool)

  datatype Result = Result(install: seq<Action>, build: seq<Action>, missing: seq<Action>)

  function NameSet(s: seq<Action>): set<string> {
    set a | a in s :: a.name
  }

  /** The package name in front of a version constraint. */
  function StripDepVersion(dep: string): (name: string)
    ensures name <= dep
    ensures forall c <- name :: c !in "<>="
    ensures |name| < |dep| ==> dep[|name|] in "<>="
  {
    if dep == [] || dep[0] in "<>=" then [] else [dep[0]] + StripDepVersion(dep[1..])
  }

  /** The names in a dependency list; an entry without a name counts for nothing. */
  function Stripped(deps: seq<string>): set<string> {
    set d | d in deps && StripDepVersion(d) != "" :: StripDepVersion(d)
  }

  function DepsOf(p: Pkg): set<string> {
    Stripped(p.depends) + Stripped(p.makedepends) + Stripped(p.checkdepends)
  }

  /** A list of dependencies names this package, with whatever version. */
  ghost predicate NamedIn(deps: seq<string>, name: string) {
    name != "" && exists k :: 0 <= k < |deps| && StripDepVersion(deps[k]) == name
  }

  /** The package asks for `name` to run, to be built or to be checked. */
  ghost predicate AsksFor(p: Pkg, name: string) {
    NamedIn(p.depends, name) || NamedIn(p.makedepends, name) || NamedIn(p.checkdepends, name)
  }

  lemma {:induction false} StrippedAre(deps: seq<string>, name: string)
    ensures name in Stripped(deps) <==> NamedIn(deps, name)
  {
    if name in Stripped(deps) {
      var d :| d in deps && StripDepVersion(d) != "" && StripDepVersion(d) == name;
      var k :| 0 <= k < |deps| && deps[k] == d;
    }
    if NamedIn(deps, name) {
      var k :| 0 <= k < |deps| && StripDepVersion(deps[k]) == name;
      assert deps[k] in deps;
    }
  }

  /** The names a package needs are those its three lists hold. */
  lemma {:induction false} DepsAreAskedFor(p: Pkg, name: string)
    ensures name in DepsOf(p) <==> AsksFor(p, name)
  {
    StrippedAre(p.depends, name);
    StrippedAre(p.makedepends, name);
    StrippedAre(p.checkdepends, name);
  }

  function Needed(aur: Aur): Needs {
    map n | n in aur :: DepsOf(aur[n])
  }

  function ActionNames(s: seq<Action>): seq<string> {
    seq(|s|, i requires 0 <= i < |s| => s[i].name)
  }

  // ---- classifying dependencies ----

  lemma StrippedNext(deps: seq<string>, d: nat)
    requires d < |deps|
    ensures Stripped(deps[..d + 1]) ==
      Stripped(deps[..d]) + if StripDepVersion(deps[d]) == "" then {} else {StripDepVersion(deps[d])}
  {
    assert deps[..d + 1] == deps[..d] + [deps[d]];
  }

  predicate InActions(s: seq<Action>, name: string) {
    exists a :: a in s && a.name == name
  }

  /** Packages left to the repositories: without a version, none twice. */
  ghost predicate FromRepositories(install: seq<Action>) {
    Distinct(ActionNames(install)) && forall a <- install :: a == Action(a.name, None, false)
  }

  /** The lists of the worklist: no repetition, and whatever is queued or to be installed was seen. */
  ghost predicate Lists(seen: set<string>, next: seq<string>, install: seq<Action>) {
    && Distinct(next) && Distinct(ActionNames(install))
    && Elements(next) <= seen && NameSet(install) <= seen
    && forall a <- install :: a == Action(a.name, None, false)
  }

  /** One package's dependencies are added to the graph: these, and nothing else. */
  ghost predicate GraphGrows(g: seq<Edge>, h: seq<Edge>, parent: string, deps: set<string>) {
    && WellFormed(h)
    && (forall a, b :: DependsOn(h, a, b) <==> DependsOn(g, a, b) || (a == parent && b in deps))
    && (forall x :: x in Names(g) ==> x in Names(h))
    && (forall x :: x in Names(h) ==> x in Names(g) || x == parent || x in deps)
    && (h == g || HasEdge(h))
  }

  /** Which of a package's dependencies are recorded: AUR packages not seen before, and those already built. One that
      is seen but still queued is not. */
  function NewEdges(aur: Aur, names: set<string>, seen: set<string>, built: set<string>): set<string> {
    (names - seen) * aur.Keys + names * built
  }

  lemma AppendAction(s: seq<Action>, a: Action)
    ensures ActionNames(s + [a]) == ActionNames(s) + [a.name]
    ensures NameSet(s + [a]) == NameSet(s) + {a.name}
  {
  }

  lemma ElementsAdd(s: seq<string>, x: string)
    ensures Elements(SetAdd(s, x)) == Elements(s) + {x}
  {
  }

  lemma NameSetIsNames(s: seq<Action>, name: string)
    ensures name in NameSet(s) <==> name in ActionNames(s)
    ensures name in NameSet(s) <==> InActions(s, name)
  {
    if name in NameSet(s) {
      var a :| a in s && a.name == name;
      var i :| 0 <= i < |s| && s[i] == a;
      assert ActionNames(s)[i] == name;
    }
  }

  /** The worklist: names seen, names queued for the next round, repository packages, and
      whether this round queued anything. */
  datatype Work = Work(seen: seq<string>, next: seq<string>, install: seq<Action>, changed: bool)

  ghost predicate ValidWork(w: Work) {
    Lists(Elements(w.seen), w.next, w.install)
  }

  /** What classifying these dependency names does to the worklist. */
  ghost predicate Classified(aur: Aur, names: set<string>, w0: Work, w: Work) {
    && ValidWork(w)
    && Elements(w.seen) == Elements(w0.seen) + names
    && Elements(w.next) == Elements(w0.next) + (names - Elements(w0.seen)) * aur.Keys
    && NameSet(w.install) == NameSet(w0.install) + (names - Elements(w0.seen) - aur.Keys)
    && w0.next <= w.next
    && (w.changed <==> w0.changed || w.next != w0.next)
  }

  /** A dependency seen for the first time is queued if the AUR has it and is left to the
      repositories if not; either way an edge to an AUR package already known is recorded. */
  method ClassifyOne(aur: Aur, name: string, parent: string, build: seq<Action>, w0: Work, graph: Graph)
    returns (w: Work)
    requires WellFormed(graph.edges) && ValidWork(w0) && NameSet(build) <= aur.Keys
    modifies graph
    ensures Classified(aur, {name}, w0, w)
    ensures GraphGrows(old(graph.edges), graph.edges, parent,
                       NewEdges(aur, {name}, Elements(w0.seen), NameSet(build)))
  {
    ElementsAdd(w0.seen, name);
    ElementsAdd(w0.next, name);
    w := w0.(seen := SetAdd(w0.seen, name));
    if name !in w0.seen {
      if name in aur {
        w := w.(next := SetAdd(w.next, name), changed := true);
        graph.AddEdge(parent, name);
        assert DependsOn(graph.edges, parent, name);
      } else {
        NameSetIsNames(w.install, name);
        if !InActions(w.install, name) {
          AppendAction(w.install, Action(name, None, false));
          w := w.(install := w.install + [Action(name, None, false)]);
        }
      }
      assert Elements(w.next) == Elements(w0.next) + ({name} - Elements(w0.seen)) * aur.Keys;
      assert NameSet(w.install) == NameSet(w0.install) + ({name} - Elements(w0.seen) - aur.Keys);
    } else if InActions(build, name) {
      NameSetIsNames(build, name);
      graph.AddEdge(parent, name);
      assert DependsOn(graph.edges, parent, name);
    }
  }

  lemma ClassifiedTwice(aur: Aur, a: set<string>, b: set<string>, w0: Work, w1: Work, w2: Work)
    requires Classified(aur, a, w0, w1) && Classified(aur, b, w1, w2)
    ensures Classified(aur, a + b, w0, w2)
  {
    assert Elements(w2.next) == Elements(w0.next) + (a + b - Elements(w0.seen)) * aur.Keys;
    assert NameSet(w2.install) == NameSet(w0.install) + (a + b - Elements(w0.seen) - aur.Keys);
  }

  lemma GraphGrowsTwice(aur: Aur, a: set<string>, b: set<string>, w0: Work, w1: Work, build: seq<Action>,
                        g0: seq<Edge>, g1: seq<Edge>, g2: seq<Edge>, parent: string)
    requires Elements(w1.seen) == Elements(w0.seen) + a && NameSet(build) <= aur.Keys
    requires GraphGrows(g0, g1, parent, NewEdges(aur, a, Elements(w0.seen), NameSet(build)))
    requires GraphGrows(g1, g2, parent, NewEdges(aur, b, Elements(w1.seen), NameSet(build)))
    ensures GraphGrows(g0, g2, parent, NewEdges(aur, a + b, Elements(w0.seen), NameSet(build)))
  {
    EdgesSplit(aur.Keys, a, b, Elements(w0.seen), NameSet(build));
  }

  lemma EdgesSplit(keys: set<string>, a: set<string>, b: set<string>, seen: set<string>, built: set<string>)
    ensures (a + b - seen) * keys + (a + b) * built ==
      ((a - seen) * keys + a * built) + ((b - (seen + a)) * keys + b * built)
  {
  }

  method ProcessDeps(aur: Aur, deps: seq<string>, parent: string, build: seq<Action>, w0: Work, graph: Graph)
    returns (w: Work)
    requires WellFormed(graph.edges) && ValidWork(w0) && NameSet(build) <= aur.Keys
    modifies graph
    ensures Classified(aur, Stripped(deps), w0, w)
    ensures GraphGrows(old(graph.edges), graph.edges, parent,
                       NewEdges(aur, Stripped(deps), Elements(w0.seen), NameSet(build)))
  {
    w := w0;
    for d := 0 to |deps|
      invariant Classified(aur, Stripped(deps[..d]), w0, w)
      invariant GraphGrows(old(graph.edges), graph.edges, parent,
                           NewEdges(aur, Stripped(deps[..d]), Elements(w0.seen), NameSet(build)))
    {
      StrippedNext(deps, d);
      var name := StripDepVersion(deps[d]);
      if name != "" {
        ghost var before, w1 := graph.edges, w;
        w := ClassifyOne(aur, name, parent, build, w, graph);
        ClassifiedTwice(aur, Stripped(deps[..d]), {name}, w0, w1, w);
        GraphGrowsTwice(aur, Stripped(deps[..d]), {name}, w0, w1, build, old(graph.edges), before, graph.edges, parent);
      }
    }
    assert deps[..|deps|] == deps;
  }

  method ProcessPkg(aur: Aur, pkg: Pkg, build: seq<Action>, w0: Work, graph: Graph) returns (w: Work)
    requires WellFormed(graph.edges) && ValidWork(w0) && NameSet(build) <= aur.Keys
    modifies graph
    ensures Classified(aur, DepsOf(pkg), w0, w)
    ensures GraphGrows(old(graph.edges), graph.edges, pkg.name,
                       NewEdges(aur, DepsOf(pkg), Elements(w0.seen), NameSet(build)))
    // every name of the three lists is seen afterwards, and queued if it is new and the AUR has it
    ensures forall name :: name in w.seen <==> name in w0.seen || AsksFor(pkg, name)
    ensures forall name :: name in w.next <==>
      name in w0.next || (AsksFor(pkg, name) && name !in w0.seen && name in aur)
  {
    ghost var a, b, c := Stripped(pkg.depends), Stripped(pkg.makedepends), Stripped(pkg.checkdepends);
    ghost var g0 := graph.edges;
    var w1 := ProcessDeps(aur, pkg.depends, pkg.name, build, w0, graph);
    ghost var g1 := graph.edges;
    var w2 := ProcessDeps(aur, pkg.makedepends, pkg.name, build, w1, graph);
    ghost var g2 := graph.edges;
    ClassifiedTwice(aur, a, b, w0, w1, w2);
    GraphGrowsTwice(aur, a, b, w0, w1, build, g0, g1, g2, pkg.name);
    w := ProcessDeps(aur, pkg.checkdepends, pkg.name, build, w2, graph);
    ClassifiedTwice(aur, a + b, c, w0, w2, w);
    GraphGrowsTwice(aur, a + b, c, w0, w2, build, g0, g2, graph.edges, pkg.name);
    AskedForAreSeen(aur, pkg, w0, w);
  }

  lemma {:induction false} AskedForAreSeen(aur: Aur, pkg: Pkg, w0: Work, w: Work)
    requires Classified(aur, DepsOf(pkg), w0, w)
    ensures forall name :: name in w.seen <==> name in w0.seen || AsksFor(pkg, name)
    ensures forall name :: name in w.next <==>
      name in w0.next || (AsksFor(pkg, name) && name !in w0.seen && name in aur)
  {
    forall name
      ensures name in w.seen <==> name in w0.seen || AsksFor(pkg, name)
      ensures name in w.next <==> name in w0.next || (AsksFor(pkg, name) && name !in w0.seen && name in aur)
    {
      DepsAreAskedFor(pkg, name);
      assert name in w.seen <==> name in Elements(w.seen);
      assert name in w0.seen <==> name in Elements(w0.seen);
      assert name in w.next <==> name in Elements(w.next);
      assert name in w0.next <==> name in Elements(w0.next);
    }
  }

  // ---- rounds ----

  function PkgNames(pkgs: seq<Pkg>): set<string> {
    set p | p in pkgs :: p.name
  }

  /** The answers of a batch: what the AUR knows, nothing twice. */
  ghost predicate Answers(aur: Aur, pkgs: seq<Pkg>) {
    && (forall p <- pkgs :: p.name in aur && p == aur[p.name])
    && (forall i, j :: 0 <= i < j < |pkgs| ==> pkgs[i].name != pkgs[j].name)
  }

  /** The RPC: an answer for every name asked for that the AUR has, in whatever order. */
  method InfoBatch(aur: Aur, names: seq<string>) returns (pkgs: seq<Pkg>)
    requires Distinct(names)
    ensures Answers(aur, pkgs) && PkgNames(pkgs) == Elements(names) * aur.Keys
  {
    pkgs := [];
    for i := 0 to |names|
      invariant Answers(aur, pkgs) && PkgNames(pkgs) == Elements(names[..i]) * aur.Keys
    {
      assert names[..i + 1] == names[..i] + [names[i]];
      if names[i] in aur {
        assert names[i] !in names[..i];
        assert forall p <- pkgs :: p.name in PkgNames(pkgs);
        ghost var before := pkgs;
        pkgs := pkgs + [aur[names[i]]];
        PkgNamesNext(before, aur[names[i]]);
      }
    }
    assert names[..|names|] == names;
  }

  /** Only true dependencies between AUR packages are recorded. */
  ghost predicate Sound(aur: Aur, build: set<string>, g: seq<Edge>) {
    forall a, b :: DependsOn(g, a, b) ==> a in build && a in aur && b in DepsOf(aur[a]) && b in aur
  }

  /** Everything these AUR packages need. */
  function AurDeps(aur: Aur, s: set<string>): set<string> {
    DepSet(Needed(aur), s)
  }

  lemma {:induction false} PkgNamesNext(pkgs: seq<Pkg>, p: Pkg)
    ensures PkgNames(pkgs + [p]) == PkgNames(pkgs) + {p.name}
  {
    forall x ensures x in PkgNames(pkgs + [p]) <==> x in PkgNames(pkgs) + {p.name} {
      if x in PkgNames(pkgs) {
        var q :| q in pkgs && q.name == x;
        assert q in pkgs + [p];
      }
      assert p in pkgs + [p];
    }
  }

  lemma {:induction false} DepsOfOne(aur: Aur, name: string)
    requires name in aur
    ensures AurDeps(aur, {name}) == DepsOf(aur[name])
  {
    assert Needed(aur)[name] == DepsOf(aur[name]);
  }

  lemma {:induction false} AurDepsNext(aur: Aur, pkgs: seq<Pkg>, k: nat)
    requires k < |pkgs| && pkgs[k].name in aur && pkgs[k] == aur[pkgs[k].name]
    ensures PkgNames(pkgs[..k + 1]) == PkgNames(pkgs[..k]) + {pkgs[k].name}
    ensures AurDeps(aur, PkgNames(pkgs[..k + 1])) == AurDeps(aur, PkgNames(pkgs[..k])) + DepsOf(pkgs[k])
  {
    assert pkgs[..k + 1] == pkgs[..k] + [pkgs[k]];
    PkgNamesNext(pkgs[..k], pkgs[k]);
    DepSetUnion(Needed(aur), PkgNames(pkgs[..k]), {pkgs[k].name});
    DepsOfOne(aur, pkgs[k].name);
  }

  /** Edges and entries are only ever added, and no entry without an edge. */
  ghost predicate Extends(g: seq<Edge>, h: seq<Edge>) {
    && (forall a, b :: DependsOn(g, a, b) ==> DependsOn(h, a, b))
    && (forall x :: x in Names(g) ==> x in Names(h))
    && (h == g || HasEdge(h))
  }

  /** Build actions are AUR packages with the AUR's version, none twice. */
  ghost predicate ValidBuild(aur: Aur, build: seq<Action>) {
    && Distinct(ActionNames(build))
    && forall a <- build :: a.name in aur && a == Action(a.name, Some(aur[a.name].version), true)
  }

  function BuildAction(pkg: Pkg): Action {
    Action(pkg.name, Some(pkg.version), true)
  }

  method AddToBuild(aur: Aur, build0: seq<Action>, pkg: Pkg) returns (build: seq<Action>)
    requires ValidBuild(aur, build0) && pkg.name in aur && pkg == aur[pkg.name]
    ensures ValidBuild(aur, build) && NameSet(build) == NameSet(build0) + {pkg.name}
    ensures build == if pkg.name in NameSet(build0) then build0 else build0 + [BuildAction(pkg)]
  {
    build := build0;
    NameSetIsNames(build, pkg.name);
    if !InActions(build, pkg.name) {
      AppendAction(build, BuildAction(pkg));
      build := build + [BuildAction(pkg)];
    }
  }

  /** The build list in discovery order, the names seen so far, and the graph of the recorded dependencies. */
  ghost predicate Discovery(aur: Aur, targets: set<string>, build: seq<Action>, seen: seq<string>, g: seq<Edge>) {
    && ValidBuild(aur, build) && WellFormed(g)
    && ExactGraph(Needed(aur), targets, ActionNames(build), g)
    && Elements(seen) == SeenBefore(Needed(aur), targets, ActionNames(build), |build|)
  }

  lemma {:induction false} NamesAreElements(build: seq<Action>)
    ensures Elements(ActionNames(build)) == NameSet(build)
  {
    forall x ensures x in Elements(ActionNames(build)) <==> x in NameSet(build) {
      NameSetIsNames(build, x);
    }
  }

  /** Only true dependencies between AUR packages are recorded. */
  lemma {:induction false} ExactIsSound(aur: Aur, targets: set<string>, disc: seq<string>, g: seq<Edge>)
    requires ExactGraph(Needed(aur), targets, disc, g)
    ensures Sound(aur, Elements(disc), g)
  {
    forall a, b | DependsOn(g, a, b) ensures a in disc && a in aur && b in DepsOf(aur[a]) && b in aur {
      var p :| 0 <= p < |disc| && disc[p] == a;
      assert Recorded(Needed(aur), targets, disc, p, b);
    }
  }

  lemma {:induction false} DiscoveryNext(aur: Aur, targets: set<string>, build: seq<Action>, pkg: Pkg, w0: Work,
                                         w: Work, g: seq<Edge>, h: seq<Edge>)
    requires pkg.name in aur && pkg == aur[pkg.name] && pkg.name !in NameSet(build)
    requires Discovery(aur, targets, build, w0.seen, g) && ValidBuild(aur, build + [BuildAction(pkg)])
    requires Elements(w.seen) == Elements(w0.seen) + DepsOf(pkg)
    requires GraphGrows(g, h, pkg.name,
                        NewEdges(aur, DepsOf(pkg), Elements(w0.seen), NameSet(build + [BuildAction(pkg)])))
    ensures Discovery(aur, targets, build + [BuildAction(pkg)], w.seen, h)
  {
    var need, disc, x := Needed(aur), ActionNames(build), pkg.name;
    NamesAreElements(build);
    AppendAction(build, BuildAction(pkg));
    assert x !in disc by { NameSetIsNames(build, x); }
    assert NameSet(build) <= need.Keys;
    ExactNext(need, targets, disc, x, g, h, Elements(w0.seen), NameSet(build) + {x});
    SeenNext(need, targets, disc, x);
  }

  lemma {:induction false} SeenNext(need: Needs, targets: set<string>, disc: seq<string>, x: string)
    requires x in need
    ensures SeenBefore(need, targets, disc + [x], |disc| + 1) == SeenBefore(need, targets, disc, |disc|) + need[x]
  {
    assert disc[..|disc|] == disc && (disc + [x])[..|disc| + 1] == disc + [x];
    assert Elements(disc + [x]) == Elements(disc) + {x};
    DepSetUnion(need, Elements(disc), {x});
    assert DepSet(need, {x}) == need[x];
  }

  /** Every package the AUR answered is built and its dependencies are classified. */
  method BuildPkg(aur: Aur, pkg: Pkg, build0: seq<Action>, w0: Work, graph: Graph, ghost targets: set<string>)
    returns (build: seq<Action>, w: Work)
    requires pkg.name in aur && pkg == aur[pkg.name] && pkg.name !in NameSet(build0)
    requires ValidWork(w0) && Discovery(aur, targets, build0, w0.seen, graph.edges)
    modifies graph
    ensures build == build0 + [BuildAction(pkg)] && NameSet(build) == NameSet(build0) + {pkg.name}
    ensures Classified(aur, DepsOf(pkg), w0, w) && Discovery(aur, targets, build, w.seen, graph.edges)
    ensures GraphGrows(old(graph.edges), graph.edges, pkg.name,
                       NewEdges(aur, DepsOf(pkg), Elements(w0.seen), NameSet(build)))
  {
    build := AddToBuild(aur, build0, pkg);
    w := ProcessPkg(aur, pkg, build, w0, graph);
    DiscoveryNext(aur, targets, build0, pkg, w0, w, old(graph.edges), graph.edges);
  }

  /** One of the first `n` packages to build depends on `x`. */
  ghost predicate HasParent(g: seq<Edge>, build: seq<Action>, n: nat, x: string) {
    exists j :: 0 <= j < n <= |build| && DependsOn(g, build[j].name, x)
  }

  /** In discovery order, whatever was not asked for comes after something that depends on it. */
  ghost predicate ParentsFirst(g: seq<Edge>, targets: set<string>, build: seq<Action>) {
    forall i :: 0 <= i < |build| ==> build[i].name in targets || HasParent(g, build, i, build[i].name)
  }

  ghost predicate Linked(g: seq<Edge>, targets: set<string>, build: seq<Action>, names: set<string>) {
    forall x :: x in names ==> x in targets || HasParent(g, build, |build|, x)
  }

  lemma ParentsKept(g: seq<Edge>, h: seq<Edge>, targets: set<string>, build: seq<Action>, longer: seq<Action>,
      names: set<string>)
    requires Extends(g, h) && build <= longer && Linked(g, targets, build, names)
    ensures Linked(h, targets, longer, names)
  {
    forall x | x in names && x !in targets ensures HasParent(h, longer, |longer|, x) {
      var j :| 0 <= j < |build| && DependsOn(g, build[j].name, x);
      assert longer[j] == build[j];
    }
  }

  lemma ParentsFirstNext(g: seq<Edge>, h: seq<Edge>, targets: set<string>, build: seq<Action>, longer: seq<Action>,
      a: Action)
    requires ParentsFirst(g, targets, build) && Extends(g, h) && Linked(g, targets, build, {a.name})
    requires longer == build || longer == build + [a]
    ensures ParentsFirst(h, targets, longer)
  {
    forall i | 0 <= i < |longer| && longer[i].name !in targets
      ensures HasParent(h, longer, i, longer[i].name)
    {
      assert i < |build| ==> longer[i] == build[i];
      assert HasParent(g, build, i, longer[i].name);
      var j :| 0 <= j < i && DependsOn(g, build[j].name, longer[i].name);
      assert longer[j] == build[j];
    }
  }

  /** Packages queued below the package just built have it as a parent. */
  lemma {:induction false} QueuedIsLinked(aur: Aur, targets: set<string>, build: seq<Action>, pkg: Pkg, w0: Work,
                                          w: Work, g: seq<Edge>, h: seq<Edge>)
    requires build != [] && build[|build| - 1].name == pkg.name && Classified(aur, DepsOf(pkg), w0, w)
    requires GraphGrows(g, h, pkg.name, NewEdges(aur, DepsOf(pkg), Elements(w0.seen), NameSet(build)))
    ensures Linked(h, targets, build, Elements(w.next) - Elements(w0.next)) && Extends(g, h)
    ensures Elements(w.next) - Elements(w0.next) <= Elements(Names(h))
  {
    forall x | x in Elements(w.next) - Elements(w0.next) ensures HasParent(h, build, |build|, x) && x in Names(h) {
      assert DependsOn(h, build[|build| - 1].name, x);
    }
  }

  /** One package of a round, with the discovery order it keeps. */
  method BuildLinked(aur: Aur, pkg: Pkg, build0: seq<Action>, w0: Work, graph: Graph, ghost targets: set<string>)
    returns (build: seq<Action>, w: Work)
    requires pkg.name in aur && pkg == aur[pkg.name] && pkg.name !in NameSet(build0)
    requires ValidWork(w0) && Discovery(aur, targets, build0, w0.seen, graph.edges)
    requires ParentsFirst(graph.edges, targets, build0) && Linked(graph.edges, targets, build0, {pkg.name})
    modifies graph
    ensures build == build0 + [BuildAction(pkg)] && NameSet(build) == NameSet(build0) + {pkg.name}
    ensures Classified(aur, DepsOf(pkg), w0, w) && Discovery(aur, targets, build, w.seen, graph.edges)
    ensures ParentsFirst(graph.edges, targets, build) && Extends(old(graph.edges), graph.edges)
    ensures Linked(graph.edges, targets, build, Elements(w.next) - Elements(w0.next))
    ensures Elements(w.next) - Elements(w0.next) <= Elements(Names(graph.edges))
  {
    build, w := BuildPkg(aur, pkg, build0, w0, graph, targets);
    QueuedIsLinked(aur, targets, build, pkg, w0, w, old(graph.edges), graph.edges);
    ParentsFirstNext(old(graph.edges), graph.edges, targets, build0, build, BuildAction(pkg));
  }

  /** A round after the first `k` packages its batch answered. */
  ghost predicate RoundAt(aur: Aur, pkgs: seq<Pkg>, k: nat, build0: seq<Action>, w0: Work, build: seq<Action>,
      w: Work, g: seq<Edge>, targets: set<string>)
    requires k <= |pkgs|
  {
    var done := PkgNames(pkgs[..k]);
    && build0 <= build && NameSet(build) == NameSet(build0) + done
    && Classified(aur, AurDeps(aur, done), w0, w) && Discovery(aur, targets, build, w.seen, g)
    && ParentsFirst(g, targets, build)
    && Linked(g, targets, build, PkgNames(pkgs) + Elements(w.next))
    && Elements(w.next) <= Elements(Names(g))
  }

  lemma {:induction false} NotBuiltYet(aur: Aur, pkgs: seq<Pkg>, k: nat)
    requires Answers(aur, pkgs) && k < |pkgs|
    ensures pkgs[k].name in PkgNames(pkgs) && pkgs[k].name !in PkgNames(pkgs[..k])
    ensures pkgs[k].name in aur && pkgs[k] == aur[pkgs[k].name]
  {
    assert pkgs[k] in pkgs;
    forall p | p in pkgs[..k] ensures p.name != pkgs[k].name {
      var i :| 0 <= i < k && pkgs[..k][i] == p;
      assert pkgs[i] == p;
    }
  }

  method RoundStep(aur: Aur, pkgs: seq<Pkg>, k: nat, ghost build0: seq<Action>, ghost w0: Work, build1: seq<Action>,
      w1: Work, graph: Graph, ghost targets: set<string>)
    returns (build: seq<Action>, w: Work)
    requires k < |pkgs| && pkgs[k].name in aur && pkgs[k] == aur[pkgs[k].name] && pkgs[k].name !in NameSet(build1)
    requires RoundAt(aur, pkgs, k, build0, w0, build1, w1, graph.edges, targets)
    modifies graph
    ensures RoundAt(aur, pkgs, k + 1, build0, w0, build, w, graph.edges, targets)
    ensures Extends(old(graph.edges), graph.edges)
  {
    ghost var g := graph.edges;
    LinkedPart(g, targets, build1, PkgNames(pkgs) + Elements(w1.next), pkgs, k);
    build, w := BuildLinked(aur, pkgs[k], build1, w1, graph, targets);
    LinkedNext(g, graph.edges, targets, build1, build, PkgNames(pkgs), Elements(w1.next), Elements(w.next));
    DoneNext(aur, pkgs, k, w0, w1, w);
  }

  lemma {:induction false} LinkedNext(g: seq<Edge>, h: seq<Edge>, targets: set<string>, build: seq<Action>,
                                      longer: seq<Action>, names: set<string>, before: set<string>, after: set<string>)
    requires Extends(g, h) && build <= longer && Linked(g, targets, build, names + before)
    requires Linked(h, targets, longer, after - before)
    requires before <= Elements(Names(g)) && after - before <= Elements(Names(h))
    ensures Linked(h, targets, longer, names + after) && after <= Elements(Names(h))
  {
    ParentsKept(g, h, targets, build, longer, names + before);
    LinkedJoin(h, targets, longer, names, before, after);
    NamesKept(g, h, before, after);
  }

  lemma {:induction false} DoneNext(aur: Aur, pkgs: seq<Pkg>, k: nat, w0: Work, w1: Work, w: Work)
    requires k < |pkgs| && pkgs[k].name in aur && pkgs[k] == aur[pkgs[k].name]
    requires Classified(aur, AurDeps(aur, PkgNames(pkgs[..k])), w0, w1) && Classified(aur, DepsOf(pkgs[k]), w1, w)
    ensures PkgNames(pkgs[..k + 1]) == PkgNames(pkgs[..k]) + {pkgs[k].name}
    ensures Classified(aur, AurDeps(aur, PkgNames(pkgs[..k + 1])), w0, w)
  {
    AurDepsNext(aur, pkgs, k);
    ClassifiedTwice(aur, AurDeps(aur, PkgNames(pkgs[..k])), DepsOf(pkgs[k]), w0, w1, w);
  }

  lemma LinkedPart(g: seq<Edge>, targets: set<string>, build: seq<Action>, names: set<string>, pkgs: seq<Pkg>, k: nat)
    requires k < |pkgs| && PkgNames(pkgs) <= names && Linked(g, targets, build, names)
    ensures Linked(g, targets, build, {pkgs[k].name})
  {
    assert pkgs[k].name in PkgNames(pkgs);
  }

  lemma LinkedJoin(g: seq<Edge>, targets: set<string>, build: seq<Action>, names: set<string>, before: set<string>,
      after: set<string>)
    requires Linked(g, targets, build, names + before) && Linked(g, targets, build, after - before)
    ensures Linked(g, targets, build, names + after)
  {
    forall x <- names + after ensures x in names + before || x in after - before {}
  }

  lemma NamesKept(g: seq<Edge>, h: seq<Edge>, before: set<string>, after: set<string>)
    requires Extends(g, h) && before <= Elements(Names(g)) && after - before <= Elements(Names(h))
    ensures after <= Elements(Names(h))
  {
    forall x <- after ensures x in Elements(Names(h)) {
      assert x in before ==> x in Elements(Names(g));
      assert x !in before ==> x in after - before;
    }
  }

  /** One round: the packages a batch answered. */
  method Round(aur: Aur, pkgs: seq<Pkg>, build0: seq<Action>, w0: Work, graph: Graph, ghost targets: set<string>)
    returns (build: seq<Action>, w: Work)
    requires Answers(aur, pkgs) && PkgNames(pkgs) !! NameSet(build0)
    requires ValidWork(w0) && w0.next == [] && Discovery(aur, targets, build0, w0.seen, graph.edges)
    requires ParentsFirst(graph.edges, targets, build0) && Linked(graph.edges, targets, build0, PkgNames(pkgs))
    modifies graph
    ensures build0 <= build && NameSet(build) == NameSet(build0) + PkgNames(pkgs)
    ensures Classified(aur, AurDeps(aur, PkgNames(pkgs)), w0, w) && Discovery(aur, targets, build, w.seen, graph.edges)
    ensures ParentsFirst(graph.edges, targets, build) && Linked(graph.edges, targets, build, Elements(w.next))
    ensures Extends(old(graph.edges), graph.edges) && Elements(w.next) <= Elements(Names(graph.edges))
  {
    build, w := build0, w0;
    for k := 0 to |pkgs|
      invariant RoundAt(aur, pkgs, k, build0, w0, build, w, graph.edges, targets)
      invariant Extends(old(graph.edges), graph.edges)
    {
      NotBuiltYet(aur, pkgs, k);
      build, w := RoundStep(aur, pkgs, k, build0, w0, build, w, graph, targets);
    }
    assert pkgs[..|pkgs|] == pkgs;
  }

  /** The lists the rounds carry along. */
  datatype State = State(queue: seq<string>, build: seq<Action>, seen: seq<string>, install: seq<Action>)

  ghost predicate ValidState(aur: Aur, targets: set<string>, s: State, g: seq<Edge>) {
    && Discovery(aur, targets, s.build, s.seen, g) && Distinct(s.queue)
    && Lists(Elements(s.seen), [], s.install)
    && InRounds(Needed(aur), targets, ActionNames(s.build))
    && NameSet(s.build) + Elements(s.queue) * aur.Keys <= Elements(Names(g))
    && ParentsFirst(g, targets, s.build) && Linked(g, targets, s.build, Elements(s.queue))
  }

  /** After `r` rounds the lists are what the closure says they should be. */
  ghost predicate AfterRounds(need: Needs, targets: set<string>, r: nat, s: State) {
    && Elements(s.queue) == QueueAt(need, targets, r)
    && NameSet(s.build) == BuildAt(need, targets, r)
    && Elements(s.seen) == SeenAt(need, targets, r)
    && NameSet(s.install) == InstallAt(need, targets, r)
  }

  lemma NextRound(need: Needs, targets: set<string>, r: nat, s: State, t: State, asked: set<string>)
    requires AfterRounds(need, targets, r, s) && asked == Elements(s.queue) * need.Keys
    requires NameSet(t.build) == NameSet(s.build) + asked
    requires Elements(t.seen) == Elements(s.seen) + DepSet(need, asked)
    requires Elements(t.queue) == (DepSet(need, asked) - Elements(s.seen)) * need.Keys
    requires NameSet(t.install) == NameSet(s.install) + (DepSet(need, asked) - Elements(s.seen) - need.Keys)
    ensures AfterRounds(need, targets, r + 1, t)
  {
    RoundOnSets(need, targets, r);
  }

  /** Ask the AUR for the queue, and process the answers. */
  method NextState(aur: Aur, ghost targets: set<string>, ghost r: nat, s: State, graph: Graph)
    returns (t: State, changed: bool)
    requires ValidState(aur, targets, s, graph.edges) && AfterRounds(Needed(aur), targets, r, s)
    modifies graph
    ensures ValidState(aur, targets, t, graph.edges) && AfterRounds(Needed(aur), targets, r + 1, t)
    ensures (changed <==> t.queue != []) && Extends(old(graph.edges), graph.edges)
  {
    var pkgs := InfoBatch(aur, s.queue);
    NotQueuedTwice(Needed(aur), targets, r);
    var build, w := Round(aur, pkgs, s.build, Work(s.seen, [], s.install, false), graph, targets);
    t, changed := State(w.next, build, w.seen, w.install), w.changed;
    assert Needed(aur).Keys == aur.Keys;
    NextRound(Needed(aur), targets, r, s, t, PkgNames(pkgs));
    NamesAreElements(s.build);
    NamesAreElements(t.build);
    PrefixNames(s.build, t.build);
    RoundAppends(Needed(aur), targets, r, ActionNames(s.build), ActionNames(t.build));
  }

  lemma {:induction false} PrefixNames(a: seq<Action>, b: seq<Action>)
    requires a <= b
    ensures ActionNames(a) <= ActionNames(b)
  {
  }

  lemma {:induction false} NotQueuedTwice(need: Needs, targets: set<string>, r: nat)
    ensures QueueAt(need, targets, r) !! BuildAt(need, targets, r)
  {
    NeedsAccountedFor(need, targets, r);
  }

  /** The targets in the order they were asked for, each once. */
  function Asked(targets: seq<string>): seq<string> {
    if targets == [] then [] else SetAdd(Asked(targets[..|targets| - 1]), targets[|targets| - 1])
  }

  lemma {:induction false} AskedNext(targets: seq<string>, i: nat)
    requires i < |targets|
    ensures Asked(targets[..i + 1]) == SetAdd(Asked(targets[..i]), targets[i])
    ensures Elements(targets[..i + 1]) == Elements(targets[..i]) + {targets[i]}
  {
    assert targets[..i + 1][..i] == targets[..i];
    assert targets[..i + 1] == targets[..i] + [targets[i]];
  }

  /** One target: seen, and with an entry in the graph if it had none. */
  method Ask(target: string, seen0: seq<string>, graph: Graph) returns (seen: seq<string>)
    requires WellFormed(graph.edges) && Names(graph.edges) == seen0 && Distinct(seen0) && !HasEdge(graph.edges)
    modifies graph
    ensures seen == SetAdd(seen0, target) && Distinct(seen) && Elements(seen) == Elements(seen0) + {target}
    ensures WellFormed(graph.edges) && Names(graph.edges) == seen && !HasEdge(graph.edges)
  {
    ElementsAdd(seen0, target);
    seen := SetAdd(seen0, target);
    ghost var before := graph.edges;
    var k := graph.GetOrCreate(target);
    SameEdges(before, graph.edges, target);
    if target !in seen0 {
      assert Names(graph.edges) == Names(before) + [target];
    }
  }

  /** First pass: the targets are seen and queued, and each has an entry in the graph. */
  method Classify(targets: seq<string>, graph: Graph) returns (seen: seq<string>)
    requires graph.edges == []
    modifies graph
    ensures seen == Asked(targets) && Elements(seen) == Elements(targets) && Distinct(seen)
    ensures WellFormed(graph.edges) && Names(graph.edges) == Asked(targets) && !HasEdge(graph.edges)
  {
    seen := [];
    for i := 0 to |targets|
      invariant seen == Asked(targets[..i]) && Elements(seen) == Elements(targets[..i]) && Distinct(seen)
      invariant WellFormed(graph.edges) && Names(graph.edges) == seen && !HasEdge(graph.edges)
    {
      AskedNext(targets, i);
      seen := Ask(targets[i], seen, graph);
    }
    assert targets[..|targets|] == targets;
  }

  method MissingActions(queue: seq<string>) returns (missing: seq<Action>)
    ensures ActionNames(missing) == queue && NameSet(missing) == Elements(queue)
  {
    missing := [];
    for i := 0 to |queue|
      invariant ActionNames(missing) == queue[..i] && NameSet(missing) == Elements(queue[..i])
    {
      assert queue[..i + 1] == queue[..i] + [queue[i]];
      AppendAction(missing, Action(queue[i], None, false));
      missing := missing + [Action(queue[i], None, false)];
    }
    assert queue[..|queue|] == queue;
  }

  /** How many rounds take effect: the cap, or the ones before the first batch that fails. */
  function RoundsRun(failAt: Option<nat>): nat {
    if failAt.Some? && failAt.value < MAX_ITERATIONS then failAt.value else MAX_ITERATIONS
  }

  method Begin(aur: Aur, targets: seq<string>) returns (s: State, graph: Graph)
    ensures fresh(graph) && ValidState(aur, Elements(targets), s, graph.edges)
    ensures AfterRounds(Needed(aur), Elements(targets), 0, s) && Names(graph.edges) == Asked(targets)
  {
    graph := new Graph();
    var seen := Classify(targets, graph);
    s := State(seen, [], seen, []);
    forall a, b ensures !DependsOn(graph.edges, a, b) {}
  }

  /** Where the loop stands: `rounds` rounds took effect, and then possibly one batch failed. */
  ghost predicate LoopOk(aur: Aur, targets: set<string>, failAt: Option<nat>, rounds: nat, iteration: nat,
      changed: bool, s: State, g: seq<Edge>) {
    && rounds <= iteration <= MAX_ITERATIONS
    && ValidState(aur, targets, s, g)
    && (rounds == iteration ==> AfterRounds(Needed(aur), targets, rounds, s) && (changed || s.queue == []))
    && (rounds < iteration ==> failAt == Some(rounds) && !changed && Stopped(Needed(aur), targets, rounds, s))
    && (failAt.Some? ==> rounds <= failAt.value)
  }

  lemma BatchFails(aur: Aur, targets: set<string>, failAt: Option<nat>, r: nat, s: State, g: seq<Edge>)
    requires r < MAX_ITERATIONS && failAt == Some(r)
    requires ValidState(aur, targets, s, g) && AfterRounds(Needed(aur), targets, r, s)
    ensures LoopOk(aur, targets, failAt, r, r + 1, false, s.(queue := []), g)
  {
    assert Elements([]) * aur.Keys == {};
  }

  lemma BatchAnswers(aur: Aur, targets: set<string>, failAt: Option<nat>, r: nat, changed: bool, s: State, g: seq<Edge>)
    requires r < MAX_ITERATIONS && ValidState(aur, targets, s, g) && AfterRounds(Needed(aur), targets, r + 1, s)
    requires failAt.Some? ==> r < failAt.value
    requires changed <==> s.queue != []
    ensures LoopOk(aur, targets, failAt, r + 1, r + 1, changed, s, g)
  {
  }

  method Iterate(aur: Aur, ghost targets: set<string>, failAt: Option<nat>, r: nat, s: State, graph: Graph)
    returns (t: State, changed: bool, ghost more: nat)
    requires r < MAX_ITERATIONS && ValidState(aur, targets, s, graph.edges) && AfterRounds(Needed(aur), targets, r, s)
    requires failAt.Some? ==> r <= failAt.value
    modifies graph
    ensures LoopOk(aur, targets, failAt, more, r + 1, changed, t, graph.edges)
    ensures (t.queue != [] ==> changed) && Extends(old(graph.edges), graph.edges)
  {
    if failAt == Some(r) {
      BatchFails(aur, targets, failAt, r, s, graph.edges);
      t, changed, more := s.(queue := []), false, r;
    } else {
      t, changed := NextState(aur, targets, r, s, graph);
      BatchAnswers(aur, targets, failAt, r, changed, t, graph.edges);
      more := r + 1;
    }
  }

  /** `disc` is an order in which the packages may be discovered, and `g` records their dependencies accordingly. */
  ghost predicate Discovered(aur: Aur, targets: set<string>, disc: seq<string>, g: seq<Edge>) {
    Distinct(disc) && InRounds(Needed(aur), targets, disc) && ExactGraph(Needed(aur), targets, disc, g)
  }

  /** The worklist, up to the topological sort. `failAt` is the first round whose batch query
      fails, if any does. */
  method Collect(aur: Aur, targets: seq<string>, failAt: Option<nat>) returns (r: Result, graph: Graph)
    ensures fresh(graph) && WellFormed(graph.edges)
    ensures Discovered(aur, Elements(targets), ActionNames(r.build), graph.edges)
    ensures ValidBuild(aur, r.build) && FromRepositories(r.install)
    ensures NameSet(r.build) <= Elements(Names(graph.edges))
    ensures ParentsFirst(graph.edges, Elements(targets), r.build)
    ensures Collected(Needed(aur), Elements(targets), failAt, r)
    ensures HasEdge(graph.edges) || Names(graph.edges) == Asked(targets)
  {
    var s;
    s, graph := Begin(aur, targets);
    ghost var start := graph.edges;
    ghost var goal, rounds := Elements(targets), 0;
    var changed, iteration := true, 0;
    while changed && iteration < MAX_ITERATIONS && s.queue != []
      invariant LoopOk(aur, goal, failAt, rounds, iteration, changed, s, graph.edges)
      invariant Extends(start, graph.edges)
      decreases MAX_ITERATIONS - iteration
    {
      s, changed, rounds := Iterate(aur, goal, failAt, iteration, s, graph);
      iteration := iteration + 1;
    }
    CollectedAtEnd(Needed(aur), goal, failAt, rounds, iteration, s);
    var missing := MissingActions(s.queue);
    r := Result(s.install, s.build, missing);
  }

  /** What the three lists hold in the end. A failed batch drops what was still queued. */
  ghost predicate Collected(need: Needs, targets: set<string>, failAt: Option<nat>, r: Result) {
    && NameSet(r.build) == BuildAt(need, targets, RoundsRun(failAt))
    && NameSet(r.install) == InstallAt(need, targets, RoundsRun(failAt))
    && NameSet(r.missing) ==
         if failAt.Some? && failAt.value < MAX_ITERATIONS then {} else QueueAt(need, targets, MAX_ITERATIONS)
  }

  function Listed(r: Result): set<string> {
    NameSet(r.build) + NameSet(r.install) + NameSet(r.missing)
  }

  /** What was queued when a batch failed. */
  function LostQueue(need: Needs, targets: set<string>, failAt: Option<nat>): set<string> {
    if failAt.Some? && failAt.value < MAX_ITERATIONS then QueueAt(need, targets, failAt.value) else {}
  }

  /** In terms of the packages' own lists: whatever a built package asks for is on a list, a target, or lost to a failed
      batch; and whatever is on a list is a target or asked for by a built package. */
  ghost predicate AskedForIsListed(aur: Aur, targets: set<string>, failAt: Option<nat>, r: Result) {
    && (forall a, name :: a in NameSet(r.build) && a in aur && AsksFor(aur[a], name) ==>
          name in Listed(r) || name in targets || name in LostQueue(Needed(aur), targets, failAt))
    && (forall name :: name in Listed(r) ==>
          name in targets || exists a :: a in NameSet(r.build) && a in aur && AsksFor(aur[a], name))
  }

  lemma {:induction false} CollectedIsAskedFor(aur: Aur, targets: set<string>, failAt: Option<nat>, r: Result)
    requires Collected(Needed(aur), targets, failAt, r)
    ensures AskedForIsListed(aur, targets, failAt, r)
  {
    var need, n := Needed(aur), RoundsRun(failAt);
    NeedsAccountedFor(need, targets, n);
    ListedAreWanted(need, targets, n);
    forall a, name | a in NameSet(r.build) && a in aur && AsksFor(aur[a], name)
      ensures name in Listed(r) || name in targets || name in LostQueue(need, targets, failAt)
    {
      DepsAreAskedFor(aur[a], name);
      assert name in need[a] && name in DepSet(need, NameSet(r.build));
    }
    forall name | name in Listed(r) && name !in targets
      ensures exists a :: a in NameSet(r.build) && a in aur && AsksFor(aur[a], name)
    {
      assert name in DepSet(need, NameSet(r.build));
      var a :| a in NameSet(r.build) && a in need && name in need[a];
      DepsAreAskedFor(aur[a], name);
    }
  }

  /** With no failing batch, nothing is missing exactly if the build list is everything the targets lead to. */
  ghost predicate MissingIsExact(need: Needs, targets: set<string>, r: Result) {
    r.missing == [] <==> forall x :: x in NameSet(r.build) <==> Reachable(need, targets, x)
  }

  lemma {:induction false} CollectedIsComplete(need: Needs, targets: set<string>, r: Result)
    requires Collected(need, targets, None, r)
    ensures MissingIsExact(need, targets, r)
  {
    AllReachedIffNothingQueued(need, targets, MAX_ITERATIONS);
    if r.missing != [] {
      assert r.missing[0].name in NameSet(r.missing);
    }
  }

  ghost predicate Stopped(need: Needs, targets: set<string>, rounds: nat, s: State) {
    && NameSet(s.build) == BuildAt(need, targets, rounds)
    && NameSet(s.install) == InstallAt(need, targets, rounds)
    && s.queue == []
  }

  lemma CollectedAtEnd(need: Needs, targets: set<string>, failAt: Option<nat>, rounds: nat, iteration: nat, s: State)
    requires rounds <= iteration <= MAX_ITERATIONS && (failAt.Some? ==> rounds <= failAt.value)
    requires rounds == iteration ==> AfterRounds(need, targets, rounds, s)
    requires rounds < iteration ==> failAt == Some(rounds) && Stopped(need, targets, rounds, s)
    requires s.queue == [] || iteration == MAX_ITERATIONS
    ensures NameSet(s.build) == BuildAt(need, targets, RoundsRun(failAt))
    ensures NameSet(s.install) == InstallAt(need, targets, RoundsRun(failAt))
    ensures Elements(s.queue) ==
      if failAt.Some? && failAt.value < MAX_ITERATIONS then {} else QueueAt(need, targets, MAX_ITERATIONS)
  {
    if rounds == iteration && s.queue == [] {
      RoundsDone(need, targets, rounds, RoundsRun(failAt));
      RoundsDone(need, targets, rounds, MAX_ITERATIONS);
    }
  }

  // ---- the build order ----

  /** Recorded dependencies come before their dependents. */
  ghost predicate OrderedBuild(g: seq<Edge>, build: seq<Action>) {
    forall i, d :: 0 <= i < |build| && DependsOn(g, build[i].name, d) && d in NameSet(build) ==>
      d in ActionNames(build[..i])
  }

  method FindAction(actions: seq<Action>, name: string) returns (a: Option<Action>)
    ensures a.None? <==> name !in NameSet(actions)
    ensures a.Some? ==> a.value in actions && a.value.name == name
  {
    for i := 0 to |actions|
      invariant forall k :: 0 <= k < i ==> actions[k].name != name
    {
      if actions[i].name == name {
        return Some(actions[i]);
      }
    }
    a := None;
  }

  /** The build list in the sorted order: the actions are the same, and if the order puts
      dependencies first, so does the new list. */
  method Rebuild(aur: Aur, sorted: seq<string>, discovered: seq<Action>, ghost g: seq<Edge>)
    returns (build: seq<Action>)
    requires ValidBuild(aur, discovered) && Distinct(sorted) && NameSet(discovered) <= Elements(sorted)
    ensures ValidBuild(aur, build) && NameSet(build) == NameSet(discovered)
    ensures ActionNames(build) == Select(sorted, NameSet(discovered))
    ensures DepsFirst(g, sorted) ==> OrderedBuild(g, build)
  {
    build := [];
    for k := 0 to |sorted|
      invariant ValidBuild(aur, build) && NameSet(build) == Elements(sorted[..k]) * NameSet(discovered)
      invariant ActionNames(build) == Select(sorted[..k], NameSet(discovered))
      invariant DepsFirst(g, sorted) ==> OrderedWithin(g, build, NameSet(discovered))
    {
      assert sorted[..k + 1] == sorted[..k] + [sorted[k]];
      assert sorted[..k + 1][..k] == sorted[..k];
      var a := FindAction(discovered, sorted[k]);
      if a.Some? {
        assert sorted[k] !in sorted[..k];
        AppendAction(build, a.value);
        NameSetIsNames(build, sorted[k]);
        if DepsFirst(g, sorted) {
          AppendOrdered(g, build, a.value, NameSet(discovered), sorted, k);
        }
        build := build + [a.value];
      }
    }
    assert sorted[..|sorted|] == sorted;
  }

  ghost predicate OrderedWithin(g: seq<Edge>, build: seq<Action>, names: set<string>) {
    forall i, d :: 0 <= i < |build| && DependsOn(g, build[i].name, d) && d in names ==> d in ActionNames(build[..i])
  }

  lemma AppendOrdered(g: seq<Edge>, build: seq<Action>, a: Action, names: set<string>, sorted: seq<string>, k: nat)
    requires OrderedWithin(g, build, names) && DepsFirst(g, sorted) && k < |sorted| && a.name == sorted[k]
    requires NameSet(build) == Elements(sorted[..k]) * names
    ensures OrderedWithin(g, build + [a], names)
  {
    var longer := build + [a];
    forall i, d | 0 <= i < |longer| && DependsOn(g, longer[i].name, d) && d in names
      ensures d in ActionNames(longer[..i])
    {
      if i < |build| {
        assert longer[..i] == build[..i];
      } else {
        assert longer[..i] == build;
        assert d in sorted[..k];
        NameSetIsNames(build, d);
      }
    }
  }

  /** Discovery order is wrong as soon as anything is built that was not asked for. */
  lemma DiscoveryOrderIsWrong(g: seq<Edge>, targets: set<string>, build: seq<Action>, i: nat)
    requires ParentsFirst(g, targets, build) && Distinct(ActionNames(build))
    requires i < |build| && build[i].name !in targets
    ensures HasEdge(g) && !OrderedBuild(g, build)
  {
    var j :| 0 <= j < i && DependsOn(g, build[j].name, build[i].name);
    assert build[i] in build && build[i].name in NameSet(build);
    forall k | 0 <= k < j ensures ActionNames(build[..j])[k] != build[i].name {
      assert ActionNames(build)[k] != ActionNames(build)[i];
    }
    assert build[i].name !in ActionNames(build[..j]);
  }

  /** What both versions promise of the lists. */
  ghost predicate Planned(aur: Aur, targets: set<string>, failAt: Option<nat>, r: Result) {
    && ValidBuild(aur, r.build) && FromRepositories(r.install)
    && Collected(Needed(aur), targets, failAt, r)
    && AskedForIsListed(aur, targets, failAt, r)
    && (failAt.None? ==> MissingIsExact(Needed(aur), targets, r))
  }

  /** The order as written: with any recorded edge that of discovery; else the targets as asked for, less those the AUR
      lacks. It is right exactly if only targets are built and each comes after those it needs there. */
  ghost predicate OrderAsWritten(aur: Aur, targets: seq<string>, failAt: Option<nat>, names: seq<string>,
                                 disc: seq<string>, g: seq<Edge>) {
    && names == (if HasEdge(g) then disc else if failAt == Some(0) then [] else Select(Asked(targets), aur.Keys))
    && (TrueOrder(Needed(aur), names) <==>
          && Elements(names) <= Elements(targets)
          && BuiltInOrder(Needed(aur), disc, if HasEdge(g) then disc else Asked(targets)))
  }

  /** The plan, with the topological sort as written. The closure is complete up to the cap, but
      the sort gives up on any edge, and then the build list stays in discovery order: whenever
      something is built that was not asked for, a dependency comes after its dependent. */
  method ResolveTargets(aur: Aur, targets: seq<string>, failAt: Option<nat>)
    returns (r: Result, ghost disc: seq<string>, ghost g: seq<Edge>)
    ensures Planned(aur, Elements(targets), failAt, r)
    // the order of discovery, and the graph it leads to
    ensures Elements(disc) == NameSet(r.build) && Discovered(aur, Elements(targets), disc, g)
    ensures OrderAsWritten(aur, targets, failAt, ActionNames(r.build), disc, g)
    ensures ParentsFirst(g, Elements(targets), r.build)
    ensures NameSet(r.build) <= Elements(targets) || !TrueOrder(Needed(aur), ActionNames(r.build))
  {
    if |targets| == 0 {
      NoTargets(aur, failAt);
      return Result([], [], []), [], [];
    }
    var graph;
    r, graph := Collect(aur, targets, failAt);
    disc, g := ActionNames(r.build), graph.edges;
    NamesAreElements(r.build);
    DiscoveryIsWrong(aur, Elements(targets), r.build, g);
    var sorted := TopoSort.TopoSortAsWritten(graph.edges);
    ghost var found := r.build;
    if sorted.Some? && |sorted.value| > 0 {
      var build := Rebuild(aur, sorted.value, r.build, g);
      r := r.(build := build);
    }
    PlannedAtEnd(aur, Elements(targets), failAt, r);
    AskedHasAll(targets);
    OrderFollows(aur, targets, failAt, found, r, g);
  }

  lemma {:induction false} AskedHasAll(targets: seq<string>)
    ensures Elements(Asked(targets)) == Elements(targets) && Distinct(Asked(targets))
    ensures Asked(targets) == [] <==> targets == []
  {
    if targets != [] {
      var n := |targets| - 1;
      AskedHasAll(targets[..n]);
      assert targets[..n + 1] == targets;
      AskedNext(targets, n);
      ElementsAdd(Asked(targets[..n]), targets[n]);
    }
  }

  /** The list of targets that the sort leaves is the one that was asked for. */
  lemma {:induction false} AskedAreBuilt(aur: Aur, targets: seq<string>, failAt: Option<nat>, build: set<string>)
    requires build == BuildAt(Needed(aur), Elements(targets), RoundsRun(failAt)) && build <= Elements(targets)
    ensures Select(Asked(targets), build) == if failAt == Some(0) then [] else Select(Asked(targets), aur.Keys)
  {
    TargetsBuilt(Needed(aur), Elements(targets), RoundsRun(failAt));
    AskedHasAll(targets);
    forall z <- Asked(targets) ensures z in Elements(targets) {
      assert z in Elements(Asked(targets));
    }
    if failAt == Some(0) {
      SelectNone(Asked(targets));
    } else {
      SelectSame(Asked(targets), build, aur.Keys);
    }
  }

  lemma {:induction false} OrderFollows(aur: Aur, targets: seq<string>, failAt: Option<nat>, found: seq<Action>,
                                        r: Result, g: seq<Edge>)
    requires ValidBuild(aur, found) && ValidBuild(aur, r.build) && NameSet(found) == NameSet(r.build)
    requires Collected(Needed(aur), Elements(targets), failAt, r)
    requires HasEdge(g) ==> r.build == found
    requires !HasEdge(g) ==> NameSet(found) <= Elements(targets)
    requires !HasEdge(g) ==> ActionNames(r.build) == Select(Asked(targets), NameSet(found))
    requires NameSet(found) <= Elements(targets) || !TrueOrder(Needed(aur), ActionNames(found))
    ensures OrderAsWritten(aur, targets, failAt, ActionNames(r.build), ActionNames(found), g)
  {
    var need, disc, names := Needed(aur), ActionNames(found), ActionNames(r.build);
    NamesAreElements(found);
    NamesAreElements(r.build);
    TrueIsInOrder(need, disc, names);
    if !HasEdge(g) {
      AskedAreBuilt(aur, targets, failAt, NameSet(found));
      InOrderSelected(need, disc, Asked(targets), NameSet(found));
    }
  }

  /** The plan with the corrected sort: recorded dependencies first, unless they form a cycle; and all true ones, if
      the recorded ones imply those that were dropped. */
  method ResolveTargetsCorrected(aur: Aur, targets: seq<string>, failAt: Option<nat>)
    returns (r: Result, ghost disc: seq<string>, ghost g: seq<Edge>)
    ensures Planned(aur, Elements(targets), failAt, r)
    // the order of discovery, and the graph it leads to
    ensures Elements(disc) == NameSet(r.build) && Discovered(aur, Elements(targets), disc, g)
    ensures HasCycle(g) ==> ActionNames(r.build) == disc
    ensures !HasCycle(g) ==> RecordedOrder(g, ActionNames(r.build))
    ensures !HasCycle(g) && NothingLost(Needed(aur), disc, g) ==> TrueOrder(Needed(aur), ActionNames(r.build))
  {
    if |targets| == 0 {
      NoTargets(aur, failAt);
      return Result([], [], []), [], [];
    }
    var graph;
    r, graph := Collect(aur, targets, failAt);
    disc, g := ActionNames(r.build), graph.edges;
    NamesAreElements(r.build);
    var sorted := TopoSort.TopoSortCorrected(graph.edges);
    if sorted.Some? && |sorted.value| > 0 {
      var build := Rebuild(aur, sorted.value, r.build, g);
      SortedIsRight(aur, Elements(targets), disc, g, build);
      r := r.(build := build);
    } else if sorted.Some? {
      NonemptyHasName(r.build);
    }
    PlannedAtEnd(aur, Elements(targets), failAt, r);
  }

  lemma {:induction false} SortedIsRight(aur: Aur, targets: set<string>, disc: seq<string>, g: seq<Edge>,
                                         build: seq<Action>)
    requires Discovered(aur, targets, disc, g) && Elements(disc) == NameSet(build) && OrderedBuild(g, build)
    ensures RecordedOrder(g, ActionNames(build))
    ensures NothingLost(Needed(aur), disc, g) ==> TrueOrder(Needed(aur), ActionNames(build))
  {
    NamesAreElements(build);
    OrderedIsRecorded(g, build);
    if NothingLost(Needed(aur), disc, g) {
      TrueIfNothingLost(Needed(aur), targets, disc, g, ActionNames(build));
    }
  }

  lemma {:induction false} PlannedAtEnd(aur: Aur, targets: set<string>, failAt: Option<nat>, r: Result)
    requires ValidBuild(aur, r.build) && FromRepositories(r.install)
    requires Collected(Needed(aur), targets, failAt, r)
    ensures Planned(aur, targets, failAt, r) && Elements(ActionNames(r.build)) == NameSet(r.build)
  {
    NamesAreElements(r.build);
    CollectedIsAskedFor(aur, targets, failAt, r);
    if failAt.None? {
      CollectedIsComplete(Needed(aur), targets, r);
    }
  }

  lemma {:induction false} OrderedIsRecorded(g: seq<Edge>, build: seq<Action>)
    ensures OrderedBuild(g, build) <==> RecordedOrder(g, ActionNames(build))
  {
    NamesAreElements(build);
    forall i | 0 <= i < |build| ensures ActionNames(build[..i]) == ActionNames(build)[..i] {
    }
    assert forall d :: d in NameSet(build) <==> d in ActionNames(build);
    if RecordedOrder(g, ActionNames(build)) {
      forall i, d | 0 <= i < |build| && DependsOn(g, build[i].name, d) && d in NameSet(build)
        ensures d in ActionNames(build[..i])
      {
        assert DependsOn(g, ActionNames(build)[i], d);
      }
    }
    if OrderedBuild(g, build) {
      forall i, d | 0 <= i < |build| && DependsOn(g, ActionNames(build)[i], d) && d in ActionNames(build)
        ensures d in ActionNames(build)[..i]
      {
        assert DependsOn(g, build[i].name, d);
      }
    }
  }

  /** The dependency that discovery order puts after its dependent is a true one. */
  lemma {:induction false} DiscoveryIsWrong(aur: Aur, targets: set<string>, build: seq<Action>, g: seq<Edge>)
    requires Discovered(aur, targets, ActionNames(build), g) && ParentsFirst(g, targets, build)
    ensures NameSet(build) <= targets || (HasEdge(g) && !TrueOrder(Needed(aur), ActionNames(build)))
  {
    if !(NameSet(build) <= targets) {
      var a :| a in build && a.name !in targets;
      var i :| 0 <= i < |build| && build[i] == a;
      DiscoveryOrderIsWrong(g, targets, build, i);
      OrderedIsRecorded(g, build);
      ExactIsSound(aur, targets, ActionNames(build), g);
      if TrueOrder(Needed(aur), ActionNames(build)) {
        RecordedAreTrue(aur, ActionNames(build), g);
      }
    }
  }

  /** An order that is wrong for a recorded dependency is wrong for a true one. */
  lemma {:induction false} RecordedAreTrue(aur: Aur, names: seq<string>, g: seq<Edge>)
    requires Sound(aur, Elements(names), g) && TrueOrder(Needed(aur), names)
    ensures RecordedOrder(g, names)
  {
  }

  lemma NonemptyHasName(build: seq<Action>)
    ensures build != [] ==> NameSet(build) != {}
  {
    if build != [] {
      assert build[0].name in NameSet(build);
    }
  }

  lemma {:induction false} NoTargets(aur: Aur, failAt: Option<nat>)
    ensures Planned(aur, Elements([]), failAt, Result([], [], []))
    ensures Elements([]) == NameSet([]) && Discovered(aur, Elements([]), [], [])
  {
    RoundsDone(Needed(aur), Elements([]), 0, RoundsRun(failAt));
    RoundsDone(Needed(aur), Elements([]), 0, MAX_ITERATIONS);
    CollectedIsAskedFor(aur, Elements([]), failAt, Result([], [], []));
    if failAt.None? {
      CollectedIsComplete(Needed(aur), Elements([]), Result([], [], []));
    }
  }
}
