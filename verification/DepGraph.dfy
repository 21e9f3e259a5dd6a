/** The AUR resolver's dependency graph, as a table of packages and what each depends on, and its cycles. */
module DepGraph {
  /** A package and the AUR packages it depends on. */
  datatype Edge = Edge(pkg: string, deps: seq<string>)

  ghost predicate Distinct<T>(s: seq<T>) {
    forall i, j :: 0 <= i < j < |s| ==> s[i] != s[j]
  }

  function Names(g: seq<Edge>): seq<string> {
    seq(|g|, i requires 0 <= i < |g| => g[i].pkg)
  }

  function Elements(s: seq<string>): set<string> {
    set x | x in s
  }

  ghost predicate DependsOn(g: seq<Edge>, a: string, b: string) {
    exists i :: 0 <= i < |g| && g[i].pkg == a && b in g[i].deps
  }

  /** One entry a package, no dependency twice, every dependency has an entry. */
  ghost predicate WellFormed(g: seq<Edge>) {
    && (forall i, j :: 0 <= i < j < |g| ==> g[i].pkg != g[j].pkg)
    && (forall i :: 0 <= i < |g| ==> Distinct(g[i].deps))
    && (forall i, d :: 0 <= i < |g| && d in g[i].deps ==> d in Names(g))
  }

  function SetAdd(s: seq<string>, x: string): (r: seq<string>)
    ensures x in r && s <= r && (x in s ==> r == s)
    ensures forall y :: y in r <==> y in s || y == x
    ensures Distinct(s) ==> Distinct(r)
  {
    if x in s then s else s + [x]
  }

  class Graph {
    var edges: seq<Edge>

    constructor ()
      ensures edges == []
    {
      edges := [];
    }

    /** The entry of a package, created empty if there is none. */
    method GetOrCreate(pkg: string) returns (i: nat)
      requires WellFormed(edges)
      modifies this
      ensures WellFormed(edges) && old(edges) <= edges && i < |edges| && edges[i].pkg == pkg
      ensures if pkg in Names(old(edges)) then edges == old(edges) else edges == old(edges) + [Edge(pkg, [])]
    {
      i := 0;
      while i < |edges|
        invariant i <= |edges| && forall k :: 0 <= k < i ==> edges[k].pkg != pkg
      {
        if edges[i].pkg == pkg {
          assert Names(edges)[i] == pkg;
          return;
        }
        i := i + 1;
      }
      assert forall k :: 0 <= k < |edges| ==> Names(edges)[k] == edges[k].pkg;
      ghost var before := edges;
      edges := edges + [Edge(pkg, [])];
      assert Names(edges) == Names(before) + [pkg];
    }

    /** `pkg` depends on `dep`. */
    method AddEdge(pkg: string, dep: string)
      requires WellFormed(edges)
      modifies this
      ensures WellFormed(edges)
      ensures forall a, b :: DependsOn(edges, a, b) <==> DependsOn(old(edges), a, b) || (a == pkg && b == dep)
      ensures forall x :: x in Names(edges) <==> x in Names(old(edges)) || x == pkg || x == dep
    {
      var i := GetOrCreate(pkg);
      ghost var created := edges;
      SameEdges(old(edges), created, pkg);
      if dep in edges[i].deps {
        return;
      }
      // the dependency's own entry is created at the end of the table, so `i` stays valid
      var k := GetOrCreate(dep);
      SameEdges(created, edges, dep);
      ghost var both := edges;
      edges := edges[i := edges[i].(deps := edges[i].deps + [dep])];
      EdgeAdded(both, i, dep);
    }
  }

  lemma SameEdges(g: seq<Edge>, h: seq<Edge>, pkg: string)
    requires if pkg in Names(g) then h == g else h == g + [Edge(pkg, [])]
    ensures forall a, b :: DependsOn(h, a, b) <==> DependsOn(g, a, b)
    ensures forall x :: x in Names(h) <==> x in Names(g) || x == pkg
  {
    if pkg !in Names(g) {
      assert Names(h) == Names(g) + [pkg];
      forall a, b ensures DependsOn(h, a, b) <==> DependsOn(g, a, b) {
        if DependsOn(g, a, b) {
          var i :| 0 <= i < |g| && g[i].pkg == a && b in g[i].deps;
          assert h[i] == g[i];
        }
      }
    }
  }

  lemma EdgeAdded(g: seq<Edge>, i: nat, dep: string)
    requires WellFormed(g) && i < |g| && dep in Names(g) && dep !in g[i].deps
    ensures var h := g[i := g[i].(deps := g[i].deps + [dep])];
      && WellFormed(h) && Names(h) == Names(g)
      && forall a, b :: DependsOn(h, a, b) <==> DependsOn(g, a, b) || (a == g[i].pkg && b == dep)
  {
    var h := g[i := g[i].(deps := g[i].deps + [dep])];
    assert Names(h) == Names(g);
    forall a, b ensures DependsOn(h, a, b) <==> DependsOn(g, a, b) || (a == g[i].pkg && b == dep) {
      if DependsOn(g, a, b) {
        var k :| 0 <= k < |g| && g[k].pkg == a && b in g[k].deps;
        assert h[k].pkg == a && b in h[k].deps;
      }
      if a == g[i].pkg && b == dep {
        assert h[i].pkg == a && b in h[i].deps;
      }
      if DependsOn(h, a, b) {
        var k :| 0 <= k < |h| && h[k].pkg == a && b in h[k].deps;
        assert g[k].pkg == a;
      }
    }
  }

  // ---- cycles ----

  /** Each element depends on the next. */
  ghost predicate IsWalk(g: seq<Edge>, w: seq<string>) {
    forall i, j :: 0 <= i < j < |w| && j == i + 1 ==> DependsOn(g, w[i], w[j])
  }

  /** A closed walk along dependencies. */
  ghost predicate IsCycle(g: seq<Edge>, p: seq<string>) {
    |p| >= 2 && p[0] == p[|p| - 1] && IsWalk(g, p)
  }

  ghost predicate HasCycle(g: seq<Edge>) {
    exists p :: IsCycle(g, p)
  }

  ghost predicate HasEdge(g: seq<Edge>) {
    exists a, b :: DependsOn(g, a, b)
  }

  /** Every package comes after all its recorded dependencies. */
  ghost predicate DepsFirst(g: seq<Edge>, order: seq<string>) {
    forall i, d :: 0 <= i < |order| && DependsOn(g, order[i], d) ==> d in order[..i]
  }

  ghost predicate Permutation(g: seq<Edge>, order: seq<string>) {
    Distinct(order) && forall x :: x in order <==> x in Names(g)
  }

  /** An order with dependencies first leaves no room for a cycle. */
  lemma OrderedHasNoCycle(g: seq<Edge>, order: seq<string>)
    requires Permutation(g, order) && DepsFirst(g, order)
    ensures !HasCycle(g)
  {
    if HasCycle(g) {
      var p :| IsCycle(g, p);
      assert DependsOn(g, p[0], p[1]);
      var k :| 0 <= k < |g| && g[k].pkg == p[0] && p[1] in g[k].deps;
      assert Names(g)[k] == p[0];
      var at := Descends(g, order, p, |p| - 1);
      assert false;
    }
  }

  lemma {:induction false} Descends(g: seq<Edge>, order: seq<string>, p: seq<string>, n: nat) returns (at: nat)
    requires Distinct(order) && DepsFirst(g, order) && IsCycle(g, p) && n < |p| && p[0] in order
    ensures at < |order| && order[at] == p[n]
    ensures forall k :: 0 <= k < |order| && order[k] == p[0] ==> at + n <= k
  {
    if n == 0 {
      at :| at < |order| && order[at] == p[0];
    } else {
      var before := Descends(g, order, p, n - 1);
      assert DependsOn(g, p[n - 1], p[n]);
      assert p[n] in order[..before];
      at :| at < before && order[..before][at] == p[n];
    }
  }

  ghost predicate DependsInto(g: seq<Edge>, s: set<string>, x: string) {
    exists d :: d in s && DependsOn(g, x, d)
  }

  /** Every package of `s` depends on one of `s`. */
  ghost predicate Stuck(g: seq<Edge>, s: set<string>) {
    forall x {:trigger DependsInto(g, s, x)} :: x in s ==> DependsInto(g, s, x)
  }

  /** A walk of any length that stays in `s`. */
  lemma {:induction false} Walk(g: seq<Edge>, s: set<string>, x: string, n: nat) returns (w: seq<string>)
    requires x in s && Stuck(g, s)
    ensures |w| == n + 1 && IsWalk(g, w) && (forall y <- w :: y in s)
    decreases n
  {
    if n == 0 {
      w := [x];
    } else {
      var before := Walk(g, s, x, n - 1);
      assert before[n - 1] in s && DependsInto(g, s, before[n - 1]);
      var d :| d in s && DependsOn(g, before[n - 1], d);
      w := before + [d];
    }
  }

  lemma {:induction false} Repeats(w: seq<string>, s: set<string>) returns (i: nat, j: nat)
    requires |w| > |s| && forall y <- w :: y in s
    ensures i < j < |w| && w[i] == w[j]
  {
    var last := w[|w| - 1];
    if last in w[..|w| - 1] {
      j := |w| - 1;
      i :| i < j && w[..|w| - 1][i] == last;
    } else {
      forall y | y in w[..|w| - 1] ensures y in s - {last} {
        assert y in w;
      }
      i, j := Repeats(w[..|w| - 1], s - {last});
    }
  }

  /** Packages that all depend on one another's company contain a cycle. */
  lemma StuckHasCycle(g: seq<Edge>, s: set<string>, x: string)
    requires x in s && Stuck(g, s)
    ensures HasCycle(g)
  {
    var w := Walk(g, s, x, |s|);
    var i, j := Repeats(w, s);
    WalkSlice(g, w, i, j);
    assert IsCycle(g, w[i..j + 1]);
  }

  lemma WalkSlice(g: seq<Edge>, w: seq<string>, i: nat, j: nat)
    requires IsWalk(g, w) && i <= j < |w|
    ensures IsWalk(g, w[i..j + 1])
  {
    var p := w[i..j + 1];
    forall k, l | 0 <= k < l < |p| && l == k + 1 ensures DependsOn(g, p[k], p[l]) {
      assert p[k] == w[i + k] && p[l] == w[i + l];
    }
  }
}
