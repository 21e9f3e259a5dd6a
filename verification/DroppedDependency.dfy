/** An input on which the resolver drops a dependency and may build in the wrong order. */
module DroppedDependency {
  import opened BuildOrder
  import opened Closure
  import opened DepGraph

  /** Target a needs b and c, and b needs c. The batch answers b before c, and the graph has a's needs only. */
  ghost predicate Input(need: Needs, disc: seq<string>, g: seq<Edge>) {
    && need == map["a" := {"b", "c"}, "b" := {"c"}, "c" := {}]
    && disc == ["a", "b", "c"]
    && g == [Edge("a", ["b", "c"]), Edge("b", []), Edge("c", [])]
  }

  /** When b is processed, c is seen but still queued, so b's need of c is dropped, and the sort may put b before c. An
      order with c first is right. */
  lemma {:induction false} MayGoWrong(need: Needs, disc: seq<string>, g: seq<Edge>, wrong: seq<string>,
                                      right: seq<string>)
    requires Input(need, disc, g) && wrong == ["b", "c", "a"] && right == ["c", "b", "a"]
    ensures ExactGraph(need, {"a"}, disc, g) && InRounds(need, {"a"}, disc)
    ensures Sorted(g, wrong) && !TrueOrder(need, wrong)
    ensures Sorted(g, right) && TrueOrder(need, right)
  {
    assert Names(g) == ["a", "b", "c"];
    OnlyAHasEdges(need, disc, g);
    OnlyARecords(need, disc, g);
    DiscoveredInRounds(need, disc, g);
    assert wrong[..2] == ["b", "c"] && right[..2] == ["c", "b"] && right[..1] == ["c"];
    assert wrong[0] in need && "c" in need[wrong[0]] && wrong[1] == "c" && "c" in wrong && "c" !in wrong[..0];
  }

  lemma {:induction false} DiscoveredInRounds(need: Needs, disc: seq<string>, g: seq<Edge>)
    requires Input(need, disc, g)
    ensures InRounds(need, {"a"}, disc)
  {
    forall i, j, n: nat | 0 <= i < j < |disc| && disc[j] in Within(need, {"a"}, n)
      ensures disc[i] in Within(need, {"a"}, n)
    {
      if i == 1 {
        assert n > 0;
        assert "a" in Within(need, {"a"}, n - 1) && "b" in need["a"];
      }
    }
  }

  lemma {:induction false} OnlyARecords(need: Needs, disc: seq<string>, g: seq<Edge>)
    requires Input(need, disc, g)
    ensures forall p, y :: 0 <= p < |disc| ==>
      (Recorded(need, {"a"}, disc, p, y) <==> p == 0 && (y == "b" || y == "c"))
  {
    assert disc[..1] == ["a"] && disc[..2] == ["a", "b"] && disc[..0] == [];
    assert need["a"] == {"b", "c"} && need["b"] == {"c"} && need["c"] == {};
    assert "a" in Elements(disc[..1]) && "c" in need["a"];
    assert "c" in SeenBefore(need, {"a"}, disc, 1);
    assert SeenBefore(need, {"a"}, disc, 0) == {"a"};
  }

  lemma {:induction false} OnlyAHasEdges(need: Needs, disc: seq<string>, g: seq<Edge>)
    requires Input(need, disc, g)
    ensures forall x, y :: DependsOn(g, x, y) <==> x == "a" && (y == "b" || y == "c")
  {
    assert g[0].pkg == "a" && "b" in g[0].deps && "c" in g[0].deps;
  }
}
