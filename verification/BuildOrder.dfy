/** Which dependencies the resolver's graph ends up with, given the order in which it discovered the packages, and
    what that means for the order they are built in. */
module BuildOrder {
  import opened Closure
  import opened DepGraph

  // ---- the recorded dependencies ----

  /** The names seen before the package at position `p` is processed. */
  function SeenBefore(need: Needs, targets: set<string>, disc: seq<string>, p: nat): set<string>
    requires p <= |disc|
  {
    targets + DepSet(need, Elements(disc[..p]))
  }

  /** The package at position `p` needs the AUR package `y`. */
  predicate NeedsAur(need: Needs, disc: seq<string>, p: nat, y: string)
    requires p < |disc|
  {
    disc[p] in need && y in need[disc[p]] && y in need
  }

  /** The dependency is recorded: when its dependent is processed, `y` is on the build list already or never seen. */
  predicate Recorded(need: Needs, targets: set<string>, disc: seq<string>, p: nat, y: string)
    requires p < |disc|
  {
    NeedsAur(need, disc, p, y) && (y in disc[..p + 1] || y !in SeenBefore(need, targets, disc, p))
  }

  /** The graph holds the recorded dependencies of the discovered packages and no others. */
  ghost predicate ExactGraph(need: Needs, targets: set<string>, disc: seq<string>, g: seq<Edge>) {
    && (forall p, y :: 0 <= p < |disc| ==> (DependsOn(g, disc[p], y) <==> Recorded(need, targets, disc, p, y)))
    && (forall a, b :: DependsOn(g, a, b) ==> a in disc)
  }

  /** One more package is discovered and its dependencies are recorded. */
  lemma {:induction false} ExactNext(need: Needs, targets: set<string>, disc: seq<string>, x: string, g: seq<Edge>,
                                     h: seq<Edge>, seen: set<string>, built: set<string>)
    requires ExactGraph(need, targets, disc, g) && x in need && x !in disc
    requires seen == SeenBefore(need, targets, disc, |disc|) && built == Elements(disc) + {x} && built <= need.Keys
    requires forall a, b :: DependsOn(h, a, b) <==>
      DependsOn(g, a, b) || (a == x && b in (need[x] - seen) * need.Keys + need[x] * built)
    ensures ExactGraph(need, targets, disc + [x], h)
  {
    var more := disc + [x];
    forall p, y | 0 <= p < |more| ensures DependsOn(h, more[p], y) <==> Recorded(need, targets, more, p, y) {
      if p < |disc| {
        assert more[..p] == disc[..p] && more[..p + 1] == disc[..p + 1];
        assert more[p] == disc[p] && disc[p] in disc;
      } else {
        assert more[..p] == disc && disc[..|disc|] == disc && more[..p + 1] == more;
        assert !DependsOn(g, x, y);
      }
    }
  }

  /** In discovery order, the packages of a round come after those of earlier rounds. */
  ghost predicate InRounds(need: Needs, targets: set<string>, disc: seq<string>) {
    forall i, j, n: nat :: 0 <= i < j < |disc| && disc[j] in Within(need, targets, n) ==>
      disc[i] in Within(need, targets, n)
  }

  lemma {:induction false} RoundAppends(need: Needs, targets: set<string>, r: nat, disc: seq<string>, more: seq<string>)
    requires InRounds(need, targets, disc) && disc <= more && Distinct(more)
    requires Elements(disc) == BuildAt(need, targets, r) && Elements(more) <= Within(need, targets, r)
    ensures InRounds(need, targets, more)
  {
    forall i, j, n: nat | 0 <= i < j < |more| && more[j] in Within(need, targets, n)
      ensures more[i] in Within(need, targets, n)
    {
      if j < |disc| {
        assert disc[i] == more[i] && disc[j] == more[j];
      } else {
        assert more[j] !in disc;
        assert r > 0 ==> more[j] !in Within(need, targets, r - 1);
        if n < r {
          WithinGrows(need, targets, n, r - 1);
        } else {
          WithinGrows(need, targets, r, n);
        }
        assert more[i] in Elements(more);
      }
    }
  }

  predicate FirstToName(need: Needs, targets: set<string>, disc: seq<string>, p: nat, y: string)
    requires p <= |disc|
  {
    y !in targets && forall k :: 0 <= k < p && disc[k] in need ==> y !in need[disc[k]]
  }

  /** The exact condition: a dependency between two built packages is recorded if it is discovered before its
      dependent, or if the dependent is the first to name it. The others are dropped. */
  lemma {:induction false} RecordedIff(need: Needs, targets: set<string>, disc: seq<string>, p: nat, q: nat)
    requires Distinct(disc) && p < |disc| && q < |disc| && NeedsAur(need, disc, p, disc[q])
    ensures Recorded(need, targets, disc, p, disc[q]) <==> q <= p || FirstToName(need, targets, disc, p, disc[q])
  {
    var y := disc[q];
    if q <= p {
      assert disc[..p + 1][q] == y;
    }
    if y in disc[..p + 1] {
      var k :| 0 <= k <= p && disc[..p + 1][k] == y;
      assert disc[k] == disc[q];
    }
    FirstIsUnseen(need, targets, disc, p, y);
  }

  lemma {:induction false} FirstIsUnseen(need: Needs, targets: set<string>, disc: seq<string>, p: nat, y: string)
    requires p <= |disc|
    ensures y !in SeenBefore(need, targets, disc, p) <==> FirstToName(need, targets, disc, p, y)
  {
    forall x | x in Elements(disc[..p]) && x in need && y in need[x] ensures !FirstToName(need, targets, disc, p, y) {
      var k :| 0 <= k < p && disc[..p][k] == x;
      assert disc[k] == x;
    }
    forall k | 0 <= k < p && disc[k] in need && y in need[disc[k]] ensures y in SeenBefore(need, targets, disc, p) {
      assert disc[..p][k] == disc[k];
      assert disc[k] in Elements(disc[..p]);
    }
  }

  // ---- orders ----

  /** Every package comes after whatever it needs that is built at all. */
  ghost predicate TrueOrder(need: Needs, order: seq<string>) {
    forall i, d :: 0 <= i < |order| && order[i] in need && d in need[order[i]] && d in order ==> d in order[..i]
  }

  /** The same for the recorded dependencies. */
  ghost predicate RecordedOrder(g: seq<Edge>, order: seq<string>) {
    forall i, d :: 0 <= i < |order| && DependsOn(g, order[i], d) && d in order ==> d in order[..i]
  }

  /** Recorded dependencies lead from `x` to `y`. */
  ghost predicate Chained(g: seq<Edge>, x: string, y: string) {
    exists w :: IsWalk(g, w) && |w| >= 2 && w[0] == x && w[|w| - 1] == y
  }

  /** Whatever one built package needs of another is recorded, or follows from what is. */
  ghost predicate NothingLost(need: Needs, disc: seq<string>, g: seq<Edge>) {
    forall x, y :: x in disc && x in need && y in need[x] && y in disc ==> Chained(g, x, y)
  }

  lemma {:induction false} WalkIsOrdered(g: seq<Edge>, order: seq<string>, w: seq<string>, i: nat)
    requires RecordedOrder(g, order) && (forall a, b :: DependsOn(g, a, b) ==> a in order)
    requires IsWalk(g, w) && |w| >= 2 && i < |order| && order[i] == w[0] && w[|w| - 1] in order
    ensures w[|w| - 1] in order[..i]
  {
    var n := |w| - 1;
    assert DependsOn(g, w[n - 1], w[n]);
    if n > 1 {
      var front := w[..n];
      WalkIsOrdered(g, order, front, i);
      var k :| 0 <= k < i && order[..i][k] == w[n - 1];
      assert order[k] == w[n - 1];
      assert w[n] in order[..k];
      assert order[..k] <= order[..i];
    }
  }

  /** An order that puts recorded dependencies first is right for all true ones, if nothing is lost. */
  lemma {:induction false} TrueIfNothingLost(need: Needs, targets: set<string>, disc: seq<string>, g: seq<Edge>,
                                             order: seq<string>)
    requires ExactGraph(need, targets, disc, g) && Elements(order) == Elements(disc)
    requires RecordedOrder(g, order) && NothingLost(need, disc, g)
    ensures TrueOrder(need, order)
  {
    assert forall x :: x in order <==> x in Elements(disc);
    forall i, d | 0 <= i < |order| && order[i] in need && d in need[order[i]] && d in order ensures d in order[..i] {
      assert order[i] in order;
      assert Chained(g, order[i], d);
      var w :| IsWalk(g, w) && |w| >= 2 && w[0] == order[i] && w[|w| - 1] == d;
      WalkIsOrdered(g, order, w, i);
    }
  }

  ghost predicate Before(order: seq<string>, y: string, x: string) {
    forall i :: 0 <= i < |order| && order[i] == x ==> y in order[..i]
  }

  /** What the sort may return. */
  ghost predicate Sorted(g: seq<Edge>, order: seq<string>) {
    Permutation(g, order) && DepsFirst(g, order)
  }

  /** And only then: `y` comes before `x` in whatever the sort may return exactly if recorded dependencies lead from
      `x` to `y`. A dependency that is lost is met by luck. */
  lemma {:induction false} ForcedIffChained(g: seq<Edge>, order: seq<string>, x: string, y: string)
    requires Sorted(g, order) && x in order && y in order && x != y
    ensures (forall o :: Sorted(g, o) ==> Before(o, y, x)) <==> Chained(g, x, y)
  {
    if Chained(g, x, y) {
      forall o | Sorted(g, o) ensures Before(o, y, x) {
        ChainedIsBefore(g, o, x, y);
      }
    } else {
      var o := Rearranged(g, order, x, y);
      assert Sorted(g, o) && !Before(o, y, x);
    }
  }

  lemma {:induction false} ChainedIsBefore(g: seq<Edge>, o: seq<string>, x: string, y: string)
    requires Sorted(g, o) && Chained(g, x, y)
    ensures Before(o, y, x)
  {
    var w :| IsWalk(g, w) && |w| >= 2 && w[0] == x && w[|w| - 1] == y;
    forall i | 0 <= i < |o| && o[i] == x ensures y in o[..i] {
      WalkDescends(g, o, w, i);
    }
  }

  lemma {:induction false} WalkDescends(g: seq<Edge>, o: seq<string>, w: seq<string>, i: nat)
    requires DepsFirst(g, o) && IsWalk(g, w) && |w| >= 2 && i < |o| && o[i] == w[0]
    ensures w[|w| - 1] in o[..i]
  {
    var n := |w| - 1;
    assert DependsOn(g, w[n - 1], w[n]);
    if n > 1 {
      WalkDescends(g, o, w[..n], i);
      var k :| 0 <= k < i && o[..i][k] == w[n - 1];
      assert o[k] == w[n - 1];
      assert w[n] in o[..k];
      assert o[..k] <= o[..i];
    }
  }

  /** The elements of `s`, in their order. */
  ghost function Select(order: seq<string>, s: set<string>): seq<string> {
    if order == [] then []
    else
      var n := |order| - 1;
      Select(order[..n], s) + if order[n] in s then [order[n]] else []
  }

  lemma {:induction false} Selected(order: seq<string>, s: set<string>)
    ensures forall z :: z in Select(order, s) <==> z in order && z in s
    ensures Distinct(order) ==> Distinct(Select(order, s))
  {
    if order != [] {
      var n := |order| - 1;
      assert order == order[..n] + [order[n]];
      Selected(order[..n], s);
    }
  }

  ghost predicate ClosedUnder(g: seq<Edge>, s: set<string>) {
    forall z, d :: z in s && DependsOn(g, z, d) ==> d in s
  }

  /** All that `z` depends on is in `o`. */
  ghost predicate Settled(g: seq<Edge>, o: seq<string>, z: string) {
    forall d {:trigger DependsOn(g, z, d)} :: DependsOn(g, z, d) ==> d in o
  }

  lemma {:induction false} DepsFirstNext(g: seq<Edge>, o: seq<string>, z: string)
    requires DepsFirst(g, o) && Settled(g, o, z)
    ensures DepsFirst(g, o + [z])
  {
    var more := o + [z];
    forall i, d | 0 <= i < |more| && DependsOn(g, more[i], d) ensures d in more[..i] {
      assert more[..i] == if i < |o| then o[..i] else o;
    }
  }

  lemma {:induction false} DepsFirstPrefix(g: seq<Edge>, o: seq<string>)
    requires DepsFirst(g, o) && o != []
    ensures DepsFirst(g, o[..|o| - 1]) && Settled(g, o[..|o| - 1], o[|o| - 1])
  {
    var n := |o| - 1;
    forall i, d | 0 <= i < n && DependsOn(g, o[..n][i], d) ensures d in o[..n][..i] {
      assert o[..n][..i] == o[..i];
    }
  }

  /** What comes last in `first` and a selection of `o` has its dependencies before it. */
  lemma {:induction false} SettledIn(g: seq<Edge>, first: seq<string>, o: seq<string>, s: set<string>, z: string)
    requires Settled(g, o, z)
    requires forall d {:trigger DependsOn(g, z, d)} :: DependsOn(g, z, d) ==> d in first || d in s
    ensures Settled(g, first + Select(o, s), z)
  {
    Selected(o, s);
  }

  /** A selection may follow what has its dependencies already, if it leaves none out. */
  lemma {:induction false} SelectionFollows(g: seq<Edge>, first: seq<string>, o: seq<string>, s: set<string>)
    requires DepsFirst(g, o) && DepsFirst(g, first)
    requires forall z, d :: z in s && DependsOn(g, z, d) ==> d in first || d in s
    ensures DepsFirst(g, first + Select(o, s))
    decreases |o|
  {
    if o == [] {
      assert first + [] == first;
    } else {
      var n := |o| - 1;
      DepsFirstPrefix(g, o);
      SelectionFollows(g, first, o[..n], s);
      if o[n] in s {
        SettledIn(g, first, o[..n], s, o[n]);
        DepsFirstNext(g, first + Select(o[..n], s), o[n]);
        assert first + Select(o, s) == first + Select(o[..n], s) + [o[n]];
      } else {
        assert Select(o, s) == Select(o[..n], s);
      }
    }
  }

  ghost function Down(g: seq<Edge>, order: seq<string>, x: string): set<string> {
    set z | z in order && (z == x || Chained(g, x, z))
  }

  lemma {:induction false} DownIsClosed(g: seq<Edge>, order: seq<string>, x: string)
    requires DepsFirst(g, order)
    ensures ClosedUnder(g, Down(g, order, x))
  {
    forall z, d | z in Down(g, order, x) && DependsOn(g, z, d) ensures d in Down(g, order, x) {
      Longer(g, x, z, d);
      var i :| 0 <= i < |order| && order[i] == z;
      assert d in order[..i];
    }
  }

  lemma {:induction false} Partition(order: seq<string>, a: set<string>, b: set<string>)
    requires Distinct(order) && a !! b && a + b == Elements(order)
    ensures Distinct(Select(order, a) + Select(order, b))
    ensures forall z :: z in Select(order, a) + Select(order, b) <==> z in order
  {
    Selected(order, a);
    Selected(order, b);
    var u, v := Select(order, a), Select(order, b);
    forall z ensures z in u + v <==> z in order {
      assert z in order <==> z in a + b;
    }
    forall i, j | 0 <= i < j < |u + v| ensures (u + v)[i] != (u + v)[j] {
      if i < |u| && j >= |u| {
        assert (u + v)[i] in a && (u + v)[j] in b;
      }
    }
  }

  /** A closed part of an order may come first, and the rest after it. */
  lemma {:induction false} ClosedPartFirst(g: seq<Edge>, order: seq<string>, down: set<string>, rest: set<string>)
    requires DepsFirst(g, order) && ClosedUnder(g, down) && Elements(order) == down + rest
    ensures DepsFirst(g, Select(order, down) + Select(order, rest))
  {
    assert DepsFirst(g, []);
    SelectionFollows(g, [], order, down);
    var first := Select(order, down);
    assert [] + first == first;
    Selected(order, down);
    forall z, d | z in rest && DependsOn(g, z, d) ensures d in first || d in rest {
      assert z in Elements(order);
      var i :| 0 <= i < |order| && order[i] == z;
      assert d in order[..i];
      assert d in Elements(order);
    }
    SelectionFollows(g, first, order, rest);
  }

  /** With no chain from `x` to `y`, what `x` leads to may all come before `y`. */
  lemma {:induction false} Rearranged(g: seq<Edge>, order: seq<string>, x: string, y: string) returns (o: seq<string>)
    requires Sorted(g, order) && x in order && y in order && x != y && !Chained(g, x, y)
    ensures Sorted(g, o) && !Before(o, y, x)
  {
    var down := Down(g, order, x);
    var rest := Elements(order) - down;
    DownIsClosed(g, order, x);
    ClosedPartFirst(g, order, down, rest);
    Partition(order, down, rest);
    o := Select(order, down) + Select(order, rest);
    Selected(order, down);
    NotBefore(o, Select(order, down), x, y);
  }

  lemma {:induction false} NotBefore(o: seq<string>, first: seq<string>, x: string, y: string)
    requires first <= o && x in first && y !in first
    ensures !Before(o, y, x)
  {
    var i :| 0 <= i < |first| && first[i] == x;
    assert o[i] == x && o[..i] == first[..i];
  }

  lemma {:induction false} Longer(g: seq<Edge>, x: string, z: string, d: string)
    requires (z == x || Chained(g, x, z)) && DependsOn(g, z, d)
    ensures Chained(g, x, d)
  {
    var w := [x];
    if z != x {
      w :| IsWalk(g, w) && |w| >= 2 && w[0] == x && w[|w| - 1] == z;
    }
    assert IsWalk(g, w + [d]);
  }

  /** Every built package comes after the built packages it needs. */
  ghost predicate BuiltInOrder(need: Needs, disc: seq<string>, o: seq<string>) {
    forall x, y :: x in disc && x in need && y in need[x] && y in disc ==> Before(o, y, x)
  }

  /** When the graph has a dependencies-first order: whichever one the sort returns is right for all true dependencies
      exactly if nothing is lost. */
  lemma {:induction false} RightIffNothingLost(need: Needs, targets: set<string>, disc: seq<string>, g: seq<Edge>,
                                               order: seq<string>)
    requires ExactGraph(need, targets, disc, g) && Distinct(disc) && Sorted(g, order)
    requires forall x :: x in disc ==> x in order && x in need
    ensures (forall o :: Sorted(g, o) ==> BuiltInOrder(need, disc, o)) <==> NothingLost(need, disc, g)
  {
    forall x, y | x in disc && x in need && y in need[x] && y in disc
      ensures (forall o :: Sorted(g, o) ==> Before(o, y, x)) <==> Chained(g, x, y)
    {
      NotItself(need, targets, disc, g, order, x);
      ForcedIffChained(g, order, x, y);
    }
    if NothingLost(need, disc, g) {
      forall o | Sorted(g, o) ensures BuiltInOrder(need, disc, o) {
        forall x, y | x in disc && x in need && y in need[x] && y in disc ensures Before(o, y, x) {
          ChainedIsBefore(g, o, x, y);
        }
      }
    }
  }

  lemma {:induction false} SelfNeedIsRecorded(need: Needs, targets: set<string>, disc: seq<string>, g: seq<Edge>,
                                              x: string)
    requires ExactGraph(need, targets, disc, g) && Distinct(disc) && x in disc && x in need && x in need[x]
    ensures DependsOn(g, x, x)
  {
    var p :| 0 <= p < |disc| && disc[p] == x;
    RecordedIff(need, targets, disc, p, p);
  }

  /** A package that needs itself leaves no order. */
  lemma {:induction false} NotItself(need: Needs, targets: set<string>, disc: seq<string>, g: seq<Edge>,
                                     order: seq<string>, x: string)
    requires ExactGraph(need, targets, disc, g) && Distinct(disc) && Sorted(g, order)
    requires x in disc && x in need
    ensures x !in need[x]
  {
    OrderedHasNoCycle(g, order);
    assert DependsOn(g, x, x) ==> IsCycle(g, [x, x]);
    if x in need[x] {
      SelfNeedIsRecorded(need, targets, disc, g, x);
    }
  }

  // ---- orders that leave packages out ----

  lemma {:induction false} BeforeNext(o: seq<string>, z: string, y: string, x: string)
    ensures Before(o + [z], y, x) <==> Before(o, y, x) && (z == x ==> y in o)
  {
    var more := o + [z];
    assert forall i :: 0 <= i < |o| ==> more[i] == o[i] && more[..i] == o[..i];
    assert more[..|o|] == o && more[|o|] == z;
  }

  /** Leaving others out does not change which of two packages comes first. */
  lemma {:induction false} SelectKeepsBefore(o: seq<string>, s: set<string>, y: string, x: string)
    requires x in s && y in s
    ensures Before(Select(o, s), y, x) <==> Before(o, y, x)
    decreases |o|
  {
    if o != [] {
      var n := |o| - 1;
      assert o == o[..n] + [o[n]];
      SelectKeepsBefore(o[..n], s, y, x);
      BeforeNext(o[..n], o[n], y, x);
      Selected(o[..n], s);
      if o[n] in s {
        BeforeNext(Select(o[..n], s), o[n], y, x);
      } else {
        assert Select(o, s) == Select(o[..n], s);
      }
    }
  }

  /** An order of exactly the built packages. */
  lemma {:induction false} TrueIsInOrder(need: Needs, disc: seq<string>, order: seq<string>)
    requires Distinct(order) && Elements(order) == Elements(disc)
    ensures TrueOrder(need, order) <==> BuiltInOrder(need, disc, order)
  {
    assert forall x :: x in order <==> x in Elements(disc);
    if TrueOrder(need, order) {
      forall x, y | x in disc && x in need && y in need[x] && y in disc ensures Before(order, y, x) {
        assert y in Elements(disc);
      }
    }
    if BuiltInOrder(need, disc, order) {
      forall i, d | 0 <= i < |order| && order[i] in need && d in need[order[i]] && d in order
        ensures d in order[..i]
      {
        assert order[i] in order;
        assert Before(order, d, order[i]);
      }
    }
  }

  /** The same for an order that holds others as well, if those are left out. */
  lemma {:induction false} InOrderSelected(need: Needs, disc: seq<string>, o: seq<string>, s: set<string>)
    requires Elements(disc) <= s
    ensures BuiltInOrder(need, disc, Select(o, s)) <==> BuiltInOrder(need, disc, o)
  {
    forall x, y | x in disc && x in need && y in need[x] && y in disc
      ensures Before(Select(o, s), y, x) <==> Before(o, y, x)
    {
      assert x in Elements(disc) && y in Elements(disc);
      SelectKeepsBefore(o, s, y, x);
    }
  }

  lemma {:induction false} SelectNone(o: seq<string>)
    ensures Select(o, {}) == []
    decreases |o|
  {
    if o != [] {
      SelectNone(o[..|o| - 1]);
    }
  }

  lemma {:induction false} SelectSame(o: seq<string>, s: set<string>, t: set<string>)
    requires forall z <- o :: z in s <==> z in t
    ensures Select(o, s) == Select(o, t)
    decreases |o|
  {
    if o != [] {
      SelectSame(o[..|o| - 1], s, t);
    }
  }
}
