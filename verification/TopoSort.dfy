/** Kahn's algorithm over the dependency graph. */
module TopoSort {
  import opened Common
  import opened DepGraph

  /** How many of these dependencies are done. */
  function Met(deps: seq<string>, done: seq<string>): (n: nat)
    ensures n <= |deps|
  {
    if deps == [] then 0
    else Met(deps[..|deps| - 1], done) + if deps[|deps| - 1] in done then 1 else 0
  }

  lemma {:induction false} MetNext(deps: seq<string>, done: seq<string>, x: string)
    requires Distinct(deps) && x !in done
    ensures Met(deps, done + [x]) == Met(deps, done) + if x in deps then 1 else 0
  {
    if deps != [] {
      var last := |deps| - 1;
      MetNext(deps[..last], done, x);
      assert deps == deps[..last] + [deps[last]];
    }
  }

  lemma {:induction false} MetAll(deps: seq<string>, done: seq<string>, d: string)
    ensures Met(deps, done) == |deps| && d in deps ==> d in done
    ensures Met(deps, done) == 0 && d in deps ==> d !in done
  {
    if deps != [] {
      var last := |deps| - 1;
      MetAll(deps[..last], done, d);
      assert deps == deps[..last] + [deps[last]];
    }
  }

  lemma {:induction false} MetByAll(deps: seq<string>, done: seq<string>)
    ensures (forall d <- deps :: d in done) ==> Met(deps, done) == |deps|
    ensures (forall d <- deps :: d !in done) ==> Met(deps, done) == 0
  {
    if deps != [] {
      var last := |deps| - 1;
      MetByAll(deps[..last], done);
      assert deps[last] in deps;
      assert forall d <- deps[..last] :: d in deps;
    }
  }

  /** How many packages depend on `x`. */
  function Dependents(g: seq<Edge>, x: string): nat {
    if g == [] then 0
    else Dependents(g[..|g| - 1], x) + if x in g[|g| - 1].deps then 1 else 0
  }

  lemma {:induction false} DependentsPositive(g: seq<Edge>, x: string)
    ensures Dependents(g, x) > 0 <==> exists a :: DependsOn(g, a, x)
  {
    if g == [] {
    } else {
      var last := |g| - 1;
      DependentsPositive(g[..last], x);
      if Dependents(g[..last], x) > 0 {
        var a :| DependsOn(g[..last], a, x);
        var i :| 0 <= i < last && g[..last][i].pkg == a && x in g[..last][i].deps;
        assert g[i].pkg == a && DependsOn(g, a, x);
      } else if x in g[last].deps {
        assert DependsOn(g, g[last].pkg, x);
      } else {
        forall a ensures !DependsOn(g, a, x) {
          if DependsOn(g, a, x) {
            var i :| 0 <= i < |g| && g[i].pkg == a && x in g[i].deps;
            assert i != last;
            assert g[..last][i] == g[i];
            assert DependsOn(g[..last], a, x);
          }
        }
      }
    }
  }

  // ---- lists without repetition ----

  lemma {:induction false} DistinctFits(a: seq<string>, b: seq<string>)
    requires Distinct(a) && forall x <- a :: x in b
    ensures |a| <= |b|
    ensures |a| == |b| ==> forall x <- b :: x in a
  {
    if a != [] {
      var last := a[|a| - 1];
      assert last in a;
      var i :| 0 <= i < |b| && b[i] == last;
      var a', b' := a[..|a| - 1], b[..i] + b[i + 1..];
      forall x | x in a' ensures x in b' {
        assert x in a && x != last;
        var k :| 0 <= k < |b| && b[k] == x;
        assert x == if k < i then b'[k] else b'[k - 1];
      }
      DistinctFits(a', b');
      if |a| == |b| {
        forall x | x in b ensures x in a {
          if x != last {
            var k :| 0 <= k < |b| && b[k] == x;
            assert x == if k < i then b'[k] else b'[k - 1];
            assert x in a';
          }
        }
      }
    }
  }

  lemma NamesDistinct(g: seq<Edge>)
    requires WellFormed(g)
    ensures Distinct(Names(g))
  {
  }

  // ---- counting in-degrees ----

  method FindPkg(g: seq<Edge>, x: string) returns (k: nat)
    ensures k <= |g| && (k < |g| ==> g[k].pkg == x)
    ensures forall j :: 0 <= j < k ==> g[j].pkg != x
    ensures k == |g| <==> x !in Names(g)
  {
    k := 0;
    while k < |g|
      invariant k <= |g| && forall j :: 0 <= j < k ==> g[j].pkg != x
    {
      if g[k].pkg == x {
        assert Names(g)[k] == x;
        return;
      }
      k := k + 1;
    }
  }

  /** One package's dependencies each get one more. */
  method CountOnEach(g: seq<Edge>, deps: seq<string>, deg: array<int>)
    requires WellFormed(g) && deg.Length == |g| && Distinct(deps) && forall d <- deps :: d in Names(g)
    modifies deg
    ensures forall k :: 0 <= k < |g| ==> deg[k] == old(deg[k]) + if g[k].pkg in deps then 1 else 0
  {
    for j := 0 to |deps|
      invariant forall k :: 0 <= k < |g| ==> deg[k] == old(deg[k]) + if g[k].pkg in deps[..j] then 1 else 0
    {
      assert deps[j] in deps;
      var at := FindPkg(g, deps[j]);
      assert deps[..j + 1] == deps[..j] + [deps[j]];
      assert deps[j] !in deps[..j];
      deg[at] := deg[at] + 1;
    }
    assert deps[..|deps|] == deps;
  }

  /** As written: each recorded dependency adds one to the counter of the package depended on. */
  method CountDependents(g: seq<Edge>) returns (deg: array<int>)
    requires WellFormed(g)
    ensures fresh(deg) && deg.Length == |g|
    ensures forall k :: 0 <= k < |g| ==> deg[k] == Dependents(g, g[k].pkg)
  {
    deg := new int[|g|](_ => 0);
    for i := 0 to |g|
      invariant forall k :: 0 <= k < |g| ==> deg[k] == Dependents(g[..i], g[k].pkg)
    {
      CountOnEach(g, g[i].deps, deg);
      assert g[..i + 1][..i] == g[..i];
    }
    assert g[..|g|] == g;
  }

  /** As the algorithm needs it: each recorded dependency adds one to the dependent's counter. */
  method CountDependencies(g: seq<Edge>) returns (deg: array<int>)
    requires WellFormed(g)
    ensures fresh(deg) && deg.Length == |g|
    ensures forall k :: 0 <= k < |g| ==> deg[k] == |g[k].deps|
  {
    deg := new int[|g|](_ => 0);
    for i := 0 to |g|
      invariant forall k :: 0 <= k < i ==> deg[k] == |g[k].deps|
      invariant forall k :: i <= k < |g| ==> deg[k] == 0
    {
      for j := 0 to |g[i].deps|
        invariant forall k :: 0 <= k < i ==> deg[k] == |g[k].deps|
        invariant forall k :: i < k < |g| ==> deg[k] == 0
        invariant deg[i] == j
      {
        assert g[i].deps[j] in g[i].deps;
        var at := FindPkg(g, g[i].deps[j]);
        if at < |g| {
          deg[i] := deg[i] + 1;
        }
      }
    }
  }

  // ---- the main loop ----

  /** Enough of the package's dependencies are done for its initial counter. */
  ghost predicate Ready(e: Edge, need: int, done: seq<string>) {
    Met(e.deps, done) >= need
  }

  /** The counter of a package is what its initial value has left, and the package is queued
      or sorted exactly when that is used up. */
  ghost predicate NodeOk(e: Edge, need: int, deg: int, queue: seq<string>, sorted: seq<string>, done: seq<string>) {
    && deg == need - Met(e.deps, done)
    && (e.pkg in queue || e.pkg in sorted <==> Ready(e, need, done))
  }

  ghost predicate Lists(g: seq<Edge>, queue: seq<string>, sorted: seq<string>) {
    && Distinct(queue) && Distinct(sorted)
    && (forall x <- queue :: x in Names(g) && x !in sorted)
    && (forall x <- sorted :: x in Names(g))
  }

  ghost predicate NoDeps(g: seq<Edge>) {
    forall k :: 0 <= k < |g| ==> g[k].deps == []
  }

  /** Every sorted package was ready when it was sorted. */
  ghost predicate ReadyInTurn(g: seq<Edge>, need: seq<int>, sorted: seq<string>)
    requires |need| == |g|
  {
    forall p, k :: 0 <= p < |sorted| && 0 <= k < |g| && g[k].pkg == sorted[p] ==> Ready(g[k], need[k], sorted[..p])
  }

  /** Decrement a package's counter once for each dependency on `pkg`. */
  method Release(e: Edge, i: nat, pkg: string, deg: array<int>, queue: seq<string>) returns (queue': seq<string>)
    requires Distinct(e.deps) && i < deg.Length
    modifies deg
    ensures deg[..] == old(deg[..])[i := old(deg[i]) - if pkg in e.deps then 1 else 0]
    ensures queue' == if pkg in e.deps && deg[i] == 0 then SetAdd(queue, e.pkg) else queue
  {
    queue' := queue;
    for j := 0 to |e.deps|
      invariant deg[..] == old(deg[..])[i := old(deg[i]) - if pkg in e.deps[..j] then 1 else 0]
      invariant queue' == if pkg in e.deps[..j] && deg[i] == 0 then SetAdd(queue, e.pkg) else queue
    {
      assert e.deps[..j + 1] == e.deps[..j] + [e.deps[j]];
      if e.deps[j] == pkg {
        assert pkg !in e.deps[..j];
        deg[i] := deg[i] - 1;
        if deg[i] == 0 {
          queue' := SetAdd(queue', e.pkg);
        }
      }
    }
    assert e.deps[..|e.deps|] == e.deps;
  }

  method InitialQueue(g: seq<Edge>, deg: array<int>) returns (queue: seq<string>)
    requires WellFormed(g) && deg.Length == |g|
    ensures Lists(g, queue, [])
    ensures forall k :: 0 <= k < |g| ==> (g[k].pkg in queue <==> deg[k] == 0)
    ensures (forall k :: 0 <= k < |g| ==> deg[k] == 0) ==> queue == Names(g)
  {
    queue := [];
    for i := 0 to |g|
      invariant Lists(g, queue, [])
      invariant (forall k :: 0 <= k < |g| ==> deg[k] == 0) ==> queue == Names(g)[..i]
      invariant forall k :: 0 <= k < |g| ==> (g[k].pkg in queue <==> k < i && deg[k] == 0)
    {
      if deg[i] == 0 {
        assert Names(g)[i] == g[i].pkg;
        queue := SetAdd(queue, g[i].pkg);
      }
    }
  }

  /** One package's counter after `pkg` was appended to the sorted list. */
  lemma NodeAdvances(e: Edge, need: int, deg: int, deg': int, queue: seq<string>, queue': seq<string>,
      done: seq<string>, pkg: string)
    requires Distinct(e.deps) && pkg !in done
    requires NodeOk(e, need, deg, queue, done + [pkg], done)
    requires deg' == deg - if pkg in e.deps then 1 else 0
    requires queue' == if pkg in e.deps && deg' == 0 then SetAdd(queue, e.pkg) else queue
    ensures NodeOk(e, need, deg', queue', done + [pkg], done + [pkg])
    ensures queue' != queue ==> e.pkg !in queue && e.pkg !in done + [pkg]
  {
    MetNext(e.deps, done, pkg);
  }

  /** Take `pkg` as sorted: update the counters of its dependents and queue those that are ready. */
  method Advance(g: seq<Edge>, ghost need: seq<int>, deg: array<int>, queue: seq<string>, ghost done: seq<string>,
      pkg: string)
    returns (queue': seq<string>)
    requires WellFormed(g) && deg.Length == |g| == |need|
    requires pkg !in done && Lists(g, queue, done + [pkg])
    requires forall k :: 0 <= k < |g| ==> NodeOk(g[k], need[k], deg[k], queue, done + [pkg], done)
    modifies deg
    ensures Lists(g, queue', done + [pkg])
    ensures forall k :: 0 <= k < |g| ==> NodeOk(g[k], need[k], deg[k], queue', done + [pkg], done + [pkg])
    ensures NoDeps(g) ==> queue' == queue
  {
    queue' := queue;
    for i := 0 to |g|
      invariant Lists(g, queue', done + [pkg])
      invariant NoDeps(g) ==> queue' == queue
      invariant forall k :: 0 <= k < i ==> NodeOk(g[k], need[k], deg[k], queue', done + [pkg], done + [pkg])
      invariant forall k :: i <= k < |g| ==> NodeOk(g[k], need[k], deg[k], queue', done + [pkg], done)
    {
      ghost var before, degs := queue', deg[..];
      assert Names(g)[i] == g[i].pkg;
      queue' := Release(g[i], i, pkg, deg, queue');
      NodeAdvances(g[i], need[i], degs[i], deg[i], before, queue', done, pkg);
      forall k | 0 <= k < |g| && k != i
        ensures deg[k] == degs[k] && (g[k].pkg in queue' <==> g[k].pkg in before)
      {
        assert deg[..][k] == degs[k];
        assert g[k].pkg != g[i].pkg by {
          if k < i { assert g[k].pkg != g[i].pkg; } else { assert g[i].pkg != g[k].pkg; }
        }
      }
    }
  }

  /** The package taken from the queue was ready. */
  lemma SortedNext(g: seq<Edge>, need: seq<int>, sorted: seq<string>, pkg: string)
    requires |need| == |g| && ReadyInTurn(g, need, sorted)
    requires forall k :: 0 <= k < |g| && g[k].pkg == pkg ==> Ready(g[k], need[k], sorted)
    ensures ReadyInTurn(g, need, sorted + [pkg])
  {
    var next := sorted + [pkg];
    forall p, k | 0 <= p < |next| && 0 <= k < |g| && g[k].pkg == next[p]
      ensures Ready(g[k], need[k], next[..p])
    {
      assert next[..p] == sorted[..p];
      assert sorted[..|sorted|] == sorted;
    }
  }

  /** Drain the queue. Whatever the counters started from, a package is sorted exactly when
      enough of its dependencies are, and not before they are. */
  method Drain(g: seq<Edge>, deg: array<int>) returns (sorted: seq<string>)
    requires WellFormed(g) && deg.Length == |g|
    requires forall k :: 0 <= k < |g| ==> deg[k] >= 0
    modifies deg
    ensures Distinct(sorted) && forall x <- sorted :: x in Names(g)
    ensures ReadyInTurn(g, old(deg[..]), sorted)
    ensures forall k :: 0 <= k < |g| ==> (g[k].pkg in sorted <==> Ready(g[k], old(deg[..])[k], sorted))
    // with nothing to wait for, the order is that of the table
    ensures NoDeps(g) && (forall k :: 0 <= k < |g| ==> old(deg[k]) == 0) ==> sorted == Names(g)
  {
    ghost var need := deg[..];
    ghost var idle := NoDeps(g) && forall k :: 0 <= k < |g| ==> deg[k] == 0;
    var queue := InitialQueue(g, deg);
    sorted := [];
    forall k | 0 <= k < |g| ensures Met(g[k].deps, []) == 0 {
      MetByAll(g[k].deps, []);
    }
    while queue != []
      invariant Lists(g, queue, sorted) && ReadyInTurn(g, need, sorted)
      invariant forall k :: 0 <= k < |g| ==> NodeOk(g[k], need[k], deg[k], queue, sorted, sorted)
      invariant idle ==> sorted + queue == Names(g)
      decreases |g| - |sorted|
    {
      var pkg := queue[0];
      ghost var done := sorted;
      SortedNext(g, need, sorted, pkg);
      Popped(g, need, deg[..], queue, done);
      queue := queue[1..];
      sorted := SetAdd(sorted, pkg);
      DistinctFits(sorted, Names(g));
      queue := Advance(g, need, deg, queue, done, pkg);
    }
  }

  lemma Popped(g: seq<Edge>, need: seq<int>, deg: seq<int>, queue: seq<string>, done: seq<string>)
    requires |need| == |g| == |deg| && queue != [] && Lists(g, queue, done)
    requires forall k :: 0 <= k < |g| ==> NodeOk(g[k], need[k], deg[k], queue, done, done)
    ensures queue[0] !in done && Lists(g, queue[1..], done + [queue[0]])
    ensures forall k :: 0 <= k < |g| ==> NodeOk(g[k], need[k], deg[k], queue[1..], done + [queue[0]], done)
    ensures done + [queue[0]] + queue[1..] == done + queue
  {
    assert queue == [queue[0]] + queue[1..];
  }

  // ---- the sort ----

  /** Counting dependents, nothing that has a dependent is ever sorted: the dependency that
      would release it is itself depended on. */
  lemma {:induction false} SortedHasNoDependents(g: seq<Edge>, need: seq<int>, sorted: seq<string>, p: nat, k: nat)
    requires WellFormed(g) && |need| == |g| && ReadyInTurn(g, need, sorted) && p < |sorted|
    requires forall j :: 0 <= j < |g| ==> need[j] == Dependents(g, g[j].pkg)
    requires forall x <- sorted :: x in Names(g)
    requires k < |g| && g[k].pkg == sorted[p]
    ensures need[k] == 0
    decreases p
  {
    if need[k] > 0 {
      MetByAll(g[k].deps, sorted[..p]);
      assert Ready(g[k], need[k], sorted[..p]);
      var d :| d in g[k].deps && d in sorted[..p];
      var q :| 0 <= q < p && sorted[..p][q] == d;
      assert sorted[q] in sorted;
      var j :| 0 <= j < |g| && Names(g)[j] == d;
      SortedHasNoDependents(g, need, sorted, q, j);
      assert DependsOn(g, g[k].pkg, d);
      DependentsPositive(g, d);
      assert false;
    }
  }

  /** The sort as written gives up on every graph that has an edge at all, so it keeps its
      promise (no result exactly for a cycle) only where every edge comes with a cycle. */
  method TopoSortAsWritten(g: seq<Edge>) returns (r: Option<seq<string>>)
    requires WellFormed(g)
    ensures r.None? <==> HasEdge(g)
    ensures r.Some? ==> Permutation(g, r.value) && r.value == Names(g)
    ensures (r.None? <==> HasCycle(g)) <==> (HasEdge(g) ==> HasCycle(g))
  {
    CycleHasEdge(g);
    if g == [] {
      return Some([]);
    }
    var deg := CountDependents(g);
    ghost var need := deg[..];
    if !HasEdge(g) {
      NothingToWaitFor(g);
    }
    var sorted := Drain(g, deg);
    NamesDistinct(g);
    DistinctFits(sorted, Names(g));
    forall k | 0 <= k < |g| ensures g[k].pkg in sorted <==> Dependents(g, g[k].pkg) == 0 {
      if g[k].pkg in sorted {
        var p :| 0 <= p < |sorted| && sorted[p] == g[k].pkg;
        SortedHasNoDependents(g, need, sorted, p, k);
      }
    }
    if HasEdge(g) {
      var a, b :| DependsOn(g, a, b);
      EdgeLeavesUnsorted(g, sorted, a, b);
    } else {
      NoEdgeSortsAll(g, sorted);
    }
    r := if |sorted| < |g| then None else Some(sorted);
  }

  lemma {:induction false} NothingToWaitFor(g: seq<Edge>)
    requires !HasEdge(g)
    ensures NoDeps(g) && forall k :: 0 <= k < |g| ==> Dependents(g, g[k].pkg) == 0
  {
    forall k | 0 <= k < |g| ensures g[k].deps == [] && Dependents(g, g[k].pkg) == 0 {
      if g[k].deps != [] {
        assert DependsOn(g, g[k].pkg, g[k].deps[0]);
      }
      DependentsPositive(g, g[k].pkg);
    }
  }

  lemma NameIndex(g: seq<Edge>, x: string) returns (k: nat)
    requires x in Names(g)
    ensures k < |g| && g[k].pkg == x
  {
    k :| k < |g| && Names(g)[k] == x;
  }

  lemma EdgeLeavesUnsorted(g: seq<Edge>, sorted: seq<string>, a: string, b: string)
    requires WellFormed(g) && Distinct(sorted) && forall x <- sorted :: x in Names(g)
    requires forall k :: 0 <= k < |g| ==> (g[k].pkg in sorted <==> Dependents(g, g[k].pkg) == 0)
    requires DependsOn(g, a, b)
    ensures |sorted| < |g|
  {
    var i :| 0 <= i < |g| && g[i].pkg == a && b in g[i].deps;
    var k := NameIndex(g, b);
    DependentsPositive(g, b);
    assert Names(g)[k] == b && b !in sorted;
    DistinctFits(sorted, Names(g));
  }

  lemma NoEdgeSortsAll(g: seq<Edge>, sorted: seq<string>)
    requires WellFormed(g) && Distinct(sorted) && forall x <- sorted :: x in Names(g)
    requires forall k :: 0 <= k < |g| ==> (g[k].pkg in sorted <==> Dependents(g, g[k].pkg) == 0)
    requires !HasEdge(g)
    ensures Permutation(g, sorted) && |sorted| == |g|
  {
    forall x | x in Names(g) ensures x in sorted {
      var k := NameIndex(g, x);
      DependentsPositive(g, x);
    }
    NamesDistinct(g);
    DistinctFits(Names(g), sorted);
    DistinctFits(sorted, Names(g));
  }

  lemma CycleHasEdge(g: seq<Edge>)
    ensures HasCycle(g) ==> HasEdge(g)
  {
    if HasCycle(g) {
      var p :| IsCycle(g, p);
      assert DependsOn(g, p[0], p[1]);
    }
  }

  /** One package that depends on another is enough. */
  lemma AsWrittenFailsOnOneEdge()
    ensures var g := [Edge("a", ["b"]), Edge("b", [])];
      WellFormed(g) && HasEdge(g) && !HasCycle(g)
  {
    var g := [Edge("a", ["b"]), Edge("b", [])];
    assert Names(g) == ["a", "b"];
    assert DependsOn(g, g[0].pkg, "b");
    var order := ["b", "a"];
    assert order[..1] == ["b"];
    OrderedHasNoCycle(g, order);
  }

  /** With the count on the dependent the sort keeps its promise. */
  method TopoSortCorrected(g: seq<Edge>) returns (r: Option<seq<string>>)
    requires WellFormed(g)
    ensures r.None? <==> HasCycle(g)
    ensures r.Some? ==> Permutation(g, r.value) && DepsFirst(g, r.value)
  {
    CycleHasEdge(g);
    if g == [] {
      return Some([]);
    }
    var deg := CountDependencies(g);
    ghost var need := deg[..];
    var sorted := Drain(g, deg);
    SortedIsDepsFirst(g, need, sorted);
    NamesDistinct(g);
    DistinctFits(sorted, Names(g));
    if |sorted| < |g| {
      UnsortedHasCycle(g, need, sorted);
      return None;
    }
    OrderedHasNoCycle(g, sorted);
    r := Some(sorted);
  }

  lemma SortedIsDepsFirst(g: seq<Edge>, need: seq<int>, sorted: seq<string>)
    requires WellFormed(g) && |need| == |g| && ReadyInTurn(g, need, sorted)
    requires forall k :: 0 <= k < |g| ==> need[k] == |g[k].deps|
    ensures DepsFirst(g, sorted)
  {
    forall i, d | 0 <= i < |sorted| && DependsOn(g, sorted[i], d)
      ensures d in sorted[..i]
    {
      var k :| 0 <= k < |g| && g[k].pkg == sorted[i] && d in g[k].deps;
      assert Ready(g[k], need[k], sorted[..i]);
      MetAll(g[k].deps, sorted[..i], d);
    }
  }

  /** What could not be sorted depends on what could not be sorted. */
  lemma UnsortedHasCycle(g: seq<Edge>, need: seq<int>, sorted: seq<string>)
    requires WellFormed(g) && |need| == |g| && Distinct(sorted) && |sorted| < |g|
    requires forall k :: 0 <= k < |g| ==> need[k] == |g[k].deps|
    requires forall k :: 0 <= k < |g| ==> (g[k].pkg in sorted <==> Ready(g[k], need[k], sorted))
    ensures HasCycle(g)
  {
    var s := set x | x in Names(g) && x !in sorted;
    var x := Unsorted(g, sorted);
    forall y | y in s ensures DependsInto(g, s, y) {
      var k := NameIndex(g, y);
      MetByAll(g[k].deps, sorted);
      var d :| d in g[k].deps && d !in sorted;
      assert DependsOn(g, y, d) && d in s;
    }
    StuckHasCycle(g, s, x);
  }

  lemma Unsorted(g: seq<Edge>, sorted: seq<string>) returns (x: string)
    requires WellFormed(g) && |sorted| < |g|
    ensures x in Names(g) && x !in sorted
  {
    NamesDistinct(g);
    if forall y <- Names(g) :: y in sorted {
      DistinctFits(Names(g), sorted);
      assert false;
    }
    x :| x in Names(g) && x !in sorted;
  }
}
