/** The transitive dependencies of a set of targets, counted in steps, and the sets a
    round-by-round worklist computes on its way there. */
module Closure {

  /** For each package the AUR knows, the names it needs. */
  type Needs = map<string, set<string>>

  function DepSet(need: Needs, s: set<string>): set<string> {
    set p, d | p in s && p in need && d in need[p] :: d
  }

  /** The AUR packages within `n` dependency steps of the targets. */
  function Within(need: Needs, targets: set<string>, n: nat): set<string> {
    targets * need.Keys + if n == 0 then {} else DepSet(need, Within(need, targets, n - 1)) * need.Keys
  }

  lemma {:induction false} WithinGrows(need: Needs, targets: set<string>, m: nat, n: nat)
    requires m <= n
    ensures Within(need, targets, m) <= Within(need, targets, n)
  {
    if m > 0 {
      WithinGrows(need, targets, m - 1, n - 1);
    }
  }

  lemma {:induction false} WithinStable(need: Needs, targets: set<string>, m: nat, n: nat)
    requires m <= n && Within(need, targets, m) == Within(need, targets, m + 1)
    ensures Within(need, targets, n) == Within(need, targets, m)
  {
    if m < n {
      WithinStable(need, targets, m, n - 1);
    }
  }

  /** A chain of dependencies between AUR packages, from a target. */
  ghost predicate IsChain(need: Needs, targets: set<string>, c: seq<string>) {
    && c != [] && c[0] in targets
    && (forall x <- c :: x in need)
    && (forall i, j :: 0 <= i < j < |c| && j == i + 1 ==> c[j] in need[c[i]])
  }

  /** `Within` is reachability by chains of that length. */
  lemma {:induction false} WithinIsReach(need: Needs, targets: set<string>, n: nat, x: string)
    ensures x in Within(need, targets, n) <==> exists c :: IsChain(need, targets, c) && |c| <= n + 1 && c[|c| - 1] == x
  {
    if x in Within(need, targets, n) {
      var c := ChainTo(need, targets, n, x);
    }
    forall c | IsChain(need, targets, c) && |c| <= n + 1 && c[|c| - 1] == x
      ensures x in Within(need, targets, n)
    {
      ChainWithin(need, targets, c);
      WithinGrows(need, targets, |c| - 1, n);
    }
  }

  lemma {:induction false} ChainTo(need: Needs, targets: set<string>, n: nat, x: string) returns (c: seq<string>)
    requires x in Within(need, targets, n)
    ensures IsChain(need, targets, c) && |c| <= n + 1 && c[|c| - 1] == x
  {
    if x in targets {
      c := [x];
    } else {
      var p :| p in Within(need, targets, n - 1) && p in need && x in need[p];
      var before := ChainTo(need, targets, n - 1, p);
      c := before + [x];
    }
  }

  lemma {:induction false} ChainWithin(need: Needs, targets: set<string>, c: seq<string>)
    requires IsChain(need, targets, c)
    ensures c[|c| - 1] in Within(need, targets, |c| - 1)
  {
    assert c[|c| - 1] in c;
    if |c| > 1 {
      var before := c[..|c| - 1];
      assert forall x <- before :: x in c;
      ChainWithin(need, targets, before);
      assert c[|c| - 1] in need[c[|c| - 2]];
    }
  }

  // ---- the state after some rounds ----

  function BuildAt(need: Needs, targets: set<string>, r: nat): set<string> {
    if r == 0 then {} else Within(need, targets, r - 1)
  }

  function SeenAt(need: Needs, targets: set<string>, r: nat): set<string> {
    targets + DepSet(need, BuildAt(need, targets, r))
  }

  function QueueAt(need: Needs, targets: set<string>, r: nat): set<string> {
    if r == 0 then targets else Within(need, targets, r) - Within(need, targets, r - 1)
  }

  function InstallAt(need: Needs, targets: set<string>, r: nat): set<string> {
    DepSet(need, BuildAt(need, targets, r)) - targets - need.Keys
  }

  /** One round, on the sets. */
  lemma RoundOnSets(need: Needs, targets: set<string>, r: nat)
    ensures var asked := QueueAt(need, targets, r) * need.Keys;
      && BuildAt(need, targets, r + 1) == BuildAt(need, targets, r) + asked
      && SeenAt(need, targets, r + 1) == SeenAt(need, targets, r) + DepSet(need, asked)
      && QueueAt(need, targets, r + 1) == (DepSet(need, asked) - SeenAt(need, targets, r)) * need.Keys
      && InstallAt(need, targets, r + 1) ==
           InstallAt(need, targets, r) + (DepSet(need, asked) - SeenAt(need, targets, r) - need.Keys)
  {
    var asked := QueueAt(need, targets, r) * need.Keys;
    if r > 0 {
      WithinGrows(need, targets, r - 1, r);
    }
    assert BuildAt(need, targets, r + 1) == BuildAt(need, targets, r) + asked;
    DepSetUnion(need, BuildAt(need, targets, r), asked);
    SplitRound(targets, need.Keys, DepSet(need, BuildAt(need, targets, r)), DepSet(need, asked));
  }

  lemma SplitRound(targets: set<string>, known: set<string>, before: set<string>, found: set<string>)
    ensures targets + (before + found) == (targets + before) + found
    ensures (targets * known + (before + found) * known) - (targets * known + before * known) ==
      (found - (targets + before)) * known
    ensures (before + found) - targets - known == (before - targets - known) + (found - (targets + before) - known)
  {
  }

  lemma DepSetUnion(need: Needs, a: set<string>, b: set<string>)
    ensures DepSet(need, a + b) == DepSet(need, a) + DepSet(need, b)
  {
  }

  /** Once a round finds nothing new, further rounds would not either. */
  lemma RoundsDone(need: Needs, targets: set<string>, r: nat, n: nat)
    requires r <= n && QueueAt(need, targets, r) == {}
    ensures BuildAt(need, targets, n) == BuildAt(need, targets, r)
    ensures QueueAt(need, targets, n) == {}
    ensures InstallAt(need, targets, n) == InstallAt(need, targets, r)
  {
    if r == 0 {
      WithinStable(need, targets, 0, n);
      if n > 0 { WithinStable(need, targets, 0, n - 1); }
    } else {
      WithinGrows(need, targets, r - 1, r);
      WithinStable(need, targets, r - 1, n);
      if n > 0 { WithinStable(need, targets, r - 1, n - 1); }
    }
  }

  /** After `n` rounds the build set is everything reachable exactly when nothing the AUR has
      is still queued: for the full fifty rounds, exactly when no package is left missing. */
  lemma CompleteIffNothingQueued(need: Needs, targets: set<string>, n: nat)
    ensures QueueAt(need, targets, n) * need.Keys == {} <==>
      forall c :: IsChain(need, targets, c) ==> c[|c| - 1] in BuildAt(need, targets, n)
  {
    if QueueAt(need, targets, n) * need.Keys == {} {
      forall c | IsChain(need, targets, c) ensures c[|c| - 1] in BuildAt(need, targets, n) {
        ChainWithin(need, targets, c);
        NothingQueued(need, targets, n, |c| - 1);
      }
    } else {
      var x :| x in QueueAt(need, targets, n) * need.Keys;
      assert x in Within(need, targets, n) && x !in BuildAt(need, targets, n);
      var c := ChainTo(need, targets, n, x);
    }
  }

  ghost predicate Reachable(need: Needs, targets: set<string>, x: string) {
    exists c :: IsChain(need, targets, c) && c[|c| - 1] == x
  }

  /** Nothing that is not reachable is built; so with nothing queued the build set is exactly what is. */
  lemma {:induction false} AllReachedIffNothingQueued(need: Needs, targets: set<string>, n: nat)
    requires n > 0
    ensures QueueAt(need, targets, n) == {} <==>
      forall x :: x in BuildAt(need, targets, n) <==> Reachable(need, targets, x)
  {
    CompleteIffNothingQueued(need, targets, n);
    assert QueueAt(need, targets, n) * need.Keys == QueueAt(need, targets, n);
    forall x | x in BuildAt(need, targets, n) ensures Reachable(need, targets, x) {
      var c := ChainTo(need, targets, n - 1, x);
    }
    if forall x :: x in BuildAt(need, targets, n) <==> Reachable(need, targets, x) {
      forall c | IsChain(need, targets, c) ensures c[|c| - 1] in BuildAt(need, targets, n) {
        assert Reachable(need, targets, c[|c| - 1]);
      }
    }
  }

  /** Nothing but targets and what the built packages need is on a list or queued. */
  lemma {:induction false} ListedAreWanted(need: Needs, targets: set<string>, n: nat)
    ensures BuildAt(need, targets, n) + QueueAt(need, targets, n) + InstallAt(need, targets, n) <=
      targets + DepSet(need, BuildAt(need, targets, n))
  {
    if n > 0 {
      assert Within(need, targets, n) <= targets + DepSet(need, Within(need, targets, n - 1));
      WithinGrows(need, targets, n - 1, n);
    }
  }

  /** Only targets are built exactly if the loop stopped at once or the targets need no other AUR package. */
  lemma {:induction false} OnlyTargetsIff(need: Needs, targets: set<string>, n: nat)
    ensures BuildAt(need, targets, n) <= targets <==>
      n <= 1 || DepSet(need, targets * need.Keys) * need.Keys <= targets
  {
    if n > 1 {
      WithinGrows(need, targets, 1, n - 1);
      assert Within(need, targets, 0) == targets * need.Keys;
      assert Within(need, targets, 1) == targets * need.Keys + DepSet(need, targets * need.Keys) * need.Keys;
      if DepSet(need, targets * need.Keys) * need.Keys <= targets {
        assert Within(need, targets, 1) == Within(need, targets, 0);
        WithinStable(need, targets, 0, n - 1);
      }
    }
  }

  /** If only targets are built, they are those the AUR has. */
  lemma {:induction false} TargetsBuilt(need: Needs, targets: set<string>, n: nat)
    requires BuildAt(need, targets, n) <= targets
    ensures BuildAt(need, targets, n) == if n == 0 then {} else targets * need.Keys
  {
    if n > 0 {
      WithinGrows(need, targets, 0, n - 1);
      assert Within(need, targets, 0) == targets * need.Keys;
    }
  }

  lemma SameIfNothingNew(fewer: set<string>, more: set<string>, known: set<string>)
    requires fewer <= more <= known && (more - fewer) * known == {}
    ensures fewer == more
  {
    forall x <- more ensures x in fewer || x in (more - fewer) * known {}
  }

  lemma NothingQueued(need: Needs, targets: set<string>, n: nat, m: nat)
    requires QueueAt(need, targets, n) * need.Keys == {}
    ensures Within(need, targets, m) <= BuildAt(need, targets, n)
  {
    if n == 0 {
      assert Within(need, targets, 0) == {};
      assert Within(need, targets, 1) == {};
      WithinStable(need, targets, 0, m);
    } else {
      WithinGrows(need, targets, n - 1, n);
      if m <= n - 1 {
        WithinGrows(need, targets, m, n - 1);
      } else {
        SameIfNothingNew(Within(need, targets, n - 1), Within(need, targets, n), need.Keys);
        WithinStable(need, targets, n - 1, m);
      }
    }
  }

  /** Nothing a built package needs is forgotten, and no name is on two lists. */
  lemma NeedsAccountedFor(need: Needs, targets: set<string>, n: nat)
    ensures DepSet(need, BuildAt(need, targets, n)) <=
      BuildAt(need, targets, n) + QueueAt(need, targets, n) + InstallAt(need, targets, n) + targets
    ensures BuildAt(need, targets, n) !! InstallAt(need, targets, n)
    ensures n > 0 ==> QueueAt(need, targets, n) !! BuildAt(need, targets, n)
    ensures n > 0 ==> QueueAt(need, targets, n) !! InstallAt(need, targets, n)
  {
    if n > 0 {
      assert Within(need, targets, n) <= need.Keys && Within(need, targets, n - 1) <= need.Keys;
    }
  }
}
