/** Garbage collection of the store: roots, closure over the refs graph, dead paths, orphans, old generations. */
module Gc {
  import opened Common
  import opened Manifest
  import GenDb

  const STORE := "/nix/store/"

  /** What a collection works on: the generations, the store database's paths and references, and the
      directories that exist. */
  datatype Snapshot = Snapshot(db: GenDb.Disk, valid: set<string>, refs: set<(string, string)>, dirs: set<string>)

  /** The directory scan lists the children of the store and passes over hidden ones. */
  predicate Scanned(p: string) {
    STORE <= p && |p| > |STORE| && p[|STORE|] != '.' && '/' !in p[|STORE|..]
  }

  // ---- what is live ----

  function StorePaths(pkgs: seq<Pkg>): set<string> {
    set p <- pkgs | p.storePath.Some? :: p.storePath.value
  }

  /** Every path some generation's manifest lists. */
  function Roots(db: GenDb.Disk): set<string> {
    set id <- db.gens.Keys, path <- StorePaths(GenDb.ReadPackages(db, id)) :: path
  }

  ghost predicate WalkTo(roots: set<string>, refs: set<(string, string)>, path: seq<string>, p: string) {
    && path != [] && path[0] in roots && path[|path| - 1] == p
    && forall i, j :: 0 <= i && j == i + 1 < |path| ==> (path[i], path[j]) in refs
  }

  /** Reached from a root by following references. */
  ghost predicate Live(roots: set<string>, refs: set<(string, string)>, p: string) {
    exists path :: WalkTo(roots, refs, path, p)
  }

  lemma RootIsLive(roots: set<string>, refs: set<(string, string)>, p: string)
    requires p in roots
    ensures Live(roots, refs, p)
  {
    assert WalkTo(roots, refs, [p], p);
  }

  lemma ReferenceIsLive(roots: set<string>, refs: set<(string, string)>, p: string, q: string)
    requires Live(roots, refs, p) && (p, q) in refs
    ensures Live(roots, refs, q)
  {
    var path :| WalkTo(roots, refs, path, p);
    assert WalkTo(roots, refs, path + [q], q);
  }

  lemma WalkPrefix(roots: set<string>, refs: set<(string, string)>, path: seq<string>, p: string)
    requires WalkTo(roots, refs, path, p) && |path| > 1
    ensures WalkTo(roots, refs, path[..|path| - 1], path[|path| - 2]) && (path[|path| - 2], p) in refs
  {
    var n := |path| - 1;
    assert 0 <= n - 1 && n == n - 1 + 1 < |path|;
  }

  /** Whatever holds the roots and is closed under references holds all that is live. */
  lemma {:induction false} ClosedHoldsWalk(found: set<string>, roots: set<string>, refs: set<(string, string)>,
      path: seq<string>, p: string)
    requires WalkTo(roots, refs, path, p) && roots <= found
    requires forall r <- refs :: r.0 in found ==> r.1 in found
    ensures p in found
  {
    if |path| > 1 {
      WalkPrefix(roots, refs, path, p);
      ClosedHoldsWalk(found, roots, refs, path[..|path| - 1], path[|path| - 2]);
      assert (path[|path| - 2], p) in refs;
    }
  }

  lemma ClosedHoldsLive(found: set<string>, roots: set<string>, refs: set<(string, string)>)
    requires roots <= found
    requires forall r <- refs :: r.0 in found ==> r.1 in found
    ensures forall p :: Live(roots, refs, p) ==> p in found
  {
    forall p | Live(roots, refs, p) ensures p in found {
      var path :| WalkTo(roots, refs, path, p);
      ClosedHoldsWalk(found, roots, refs, path, p);
    }
  }

  // ---- what a collection leaves ----

  ghost function Collected(s: Snapshot): Snapshot {
    var roots := Roots(s.db);
    Snapshot(
      GenDb.Step(s.db, GenDb.Clean),
      set p | p in s.valid && Live(roots, s.refs, p),
      set r | r in s.refs && Live(roots, s.refs, r.0) && Live(roots, s.refs, r.1),
      set p | p in s.dirs && (Live(roots, s.refs, p) || (p !in s.valid && !Scanned(p))))
  }

  /** Dropping references between dead paths does not shorten a walk from fewer roots. */
  lemma {:induction false} WalksSurvive(fewer: set<string>, roots: set<string>, refs: set<(string, string)>,
      kept: set<(string, string)>, path: seq<string>, p: string)
    requires fewer <= roots
    requires forall r <- refs :: Live(roots, refs, r.0) && Live(roots, refs, r.1) ==> r in kept
    requires WalkTo(fewer, refs, path, p)
    ensures WalkTo(fewer, kept, path, p) && Live(roots, refs, p)
  {
    if |path| == 1 {
      RootIsLive(roots, refs, p);
    } else {
      var n := |path| - 1;
      WalkPrefix(fewer, refs, path, p);
      WalksSurvive(fewer, roots, refs, kept, path[..n], path[n - 1]);
      ReferenceIsLive(roots, refs, path[n - 1], p);
      assert (path[n - 1], p) in kept;
      forall i, j | 0 <= i && j == i + 1 < |path| ensures (path[i], path[j]) in kept {
        if j < n {
          assert path[..n][i] == path[i] && path[..n][j] == path[j];
        }
      }
    }
  }

  lemma LiveAfterwards(s: Snapshot, fewer: set<string>, p: string)
    requires fewer <= Roots(s.db)
    ensures Live(fewer, Collected(s).refs, p) <==> Live(fewer, s.refs, p)
  {
    var kept := Collected(s).refs;
    if Live(fewer, s.refs, p) {
      var path :| WalkTo(fewer, s.refs, path, p);
      WalksSurvive(fewer, Roots(s.db), s.refs, kept, path, p);
    }
    if Live(fewer, kept, p) {
      var path :| WalkTo(fewer, kept, path, p);
      assert WalkTo(fewer, s.refs, path, p);
    }
  }

  lemma FewerRoots(db: GenDb.Disk)
    ensures Roots(GenDb.Step(db, GenDb.Clean)) <= Roots(db)
  {
    var after := GenDb.Step(db, GenDb.Clean);
    forall path | path in Roots(after) ensures path in Roots(db) {
      var id :| id in after.gens && path in StorePaths(GenDb.ReadPackages(after, id));
      assert GenDb.ReadPackages(after, id) == GenDb.ReadPackages(db, id);
      assert id in db.gens;
    }
  }

  lemma CleanTwice(db: GenDb.Disk)
    ensures GenDb.Step(GenDb.Step(db, GenDb.Clean), GenDb.Clean) == GenDb.Step(db, GenDb.Clean)
  {
    var once := GenDb.Step(db, GenDb.Clean);
    GenDb.SameGens(once.gens, GenDb.Step(once, GenDb.Clean).gens);
  }

  /** A second collection leaves what the kept generations reach by the original references, and nothing else
      the scan or the database knows. */
  lemma SecondRunKeepsReachable(s: Snapshot)
    ensures var twice := Collected(Collected(s)); var roots := Roots(GenDb.Step(s.db, GenDb.Clean));
      && twice.db == GenDb.Step(s.db, GenDb.Clean)
      && twice.valid == (set p | p in s.valid && Live(roots, s.refs, p))
      && twice.dirs == (set p | p in s.dirs && (Live(roots, s.refs, p) || (p !in s.valid && !Scanned(p))))
  {
    var once := Collected(s);
    var roots := Roots(once.db);
    FewerRoots(s.db);
    CleanTwice(s.db);
    forall p ensures Live(roots, once.refs, p) <==> Live(roots, s.refs, p) {
      LiveAfterwards(s, roots, p);
    }
    forall p | Live(roots, s.refs, p) ensures Live(Roots(s.db), s.refs, p) {
      var path :| WalkTo(roots, s.refs, path, p);
      assert WalkTo(Roots(s.db), s.refs, path, p);
    }
  }

  /** A third collection changes nothing. */
  lemma ThirdRunChangesNothing(s: Snapshot)
    ensures Collected(Collected(Collected(s))) == Collected(Collected(s))
  {
    var once := Collected(s);
    var twice := Collected(once);
    var roots := Roots(once.db);
    CleanTwice(s.db);
    forall p ensures Live(roots, twice.refs, p) <==> Live(roots, once.refs, p) {
      LiveAfterwards(once, roots, p);
    }
    var thrice := Collected(twice);
    assert thrice.valid == twice.valid;
    assert thrice.refs == twice.refs;
    assert thrice.dirs == twice.dirs;
  }

  lemma LeavesCollected(s: Snapshot, closure: seq<string>, dead: set<string>, after: Snapshot)
    requires forall r <- s.refs :: r.0 in s.valid && r.1 in s.valid
    requires forall p :: p in closure <==> Live(Roots(s.db), s.refs, p)
    requires dead == s.valid - Elements(closure)
    requires after.db == GenDb.Step(s.db, GenDb.Clean)
    requires after.valid == s.valid - dead
    requires after.refs == set r | r in s.refs && r.0 !in dead && r.1 !in dead
    requires after.dirs == set p | p in s.dirs - dead && (!Scanned(p) || p in after.valid || p in closure)
    ensures after == Collected(s)
  {
    assert after.valid == Collected(s).valid;
    assert after.refs == Collected(s).refs;
    assert after.dirs == Collected(s).dirs;
  }

  // ---- what that means for the packages listed ----

  /** The package at position `j` of a generation's whole manifest has this path. */
  ghost predicate ListedAt(gens: map<int, GenDb.Gen>, id: int, j: int, path: string) {
    && id in gens && id > 0 && gens[id].manifest.Complete? && 0 <= j < |gens[id].manifest.pkgs|
    && gens[id].manifest.pkgs[j].storePath == Some(path)
  }

  /** A listed path leads to `q` by these references. */
  ghost predicate ListedLeadsTo(gens: map<int, GenDb.Gen>, refs: set<(string, string)>, id: int, j: int, path: string,
                                q: string) {
    ListedAt(gens, id, j, path) && Live({path}, refs, q)
  }

  /** The roots are all that any generation lists. */
  lemma {:induction false} RootsAreListed(db: GenDb.Disk, path: string)
    ensures path in Roots(db) <==> exists id, j :: ListedAt(db.gens, id, j, path)
  {
    if path in Roots(db) {
      var id :| id in db.gens && path in StorePaths(GenDb.ReadPackages(db, id));
      var pkgs := GenDb.ReadPackages(db, id);
      var p :| p in pkgs && p.storePath.Some? && p.storePath.value == path;
      var j :| 0 <= j < |pkgs| && pkgs[j] == p;
      assert ListedAt(db.gens, id, j, path);
    }
    if id, j :| ListedAt(db.gens, id, j, path) {
      var pkgs := GenDb.ReadPackages(db, id);
      assert pkgs[j] in pkgs && path in StorePaths(pkgs);
    }
  }

  lemma {:induction false} LiveIsListed(db: GenDb.Disk, refs: set<(string, string)>, q: string)
    requires Live(Roots(db), refs, q)
    ensures exists id, j, path :: ListedLeadsTo(db.gens, refs, id, j, path, q)
  {
    var walk :| WalkTo(Roots(db), refs, walk, q);
    RootsAreListed(db, walk[0]);
    var id, j :| ListedAt(db.gens, id, j, walk[0]);
    assert WalkTo({walk[0]}, refs, walk, q);
    assert ListedLeadsTo(db.gens, refs, id, j, walk[0], q);
  }

  lemma {:induction false} ListedIsLive(db: GenDb.Disk, refs: set<(string, string)>, id: int, j: int, path: string,
                                        q: string)
    requires ListedLeadsTo(db.gens, refs, id, j, path, q)
    ensures Live(Roots(db), refs, q)
  {
    RootsAreListed(db, path);
    var walk :| WalkTo({path}, refs, walk, q);
    assert WalkTo(Roots(db), refs, walk, q);
  }

  /** A child of the store directory that is not hidden. */
  lemma {:induction false} ScannedIsChild(name: string)
    ensures Scanned("/nix/store/" + name) <==> name != "" && name[0] != '.' && '/' !in name
  {
    var p := STORE + name;
    assert p[|STORE|..] == name;
  }

  // ---- the code ----

  function Elements(list: seq<string>): set<string> {
    set p | p in list
  }

  lemma NextPrefix(list: seq<string>, more: seq<string>, k: nat)
    requires list <= more && k < |list|
    ensures Elements(more[..k + 1]) == Elements(list[..k]) + {list[k]}
  {
    assert more[..k + 1] == list[..k] + [list[k]];
  }

  predicate NoRepeats(list: seq<string>) {
    forall i, j :: 0 <= i < j < |list| ==> list[i] != list[j]
  }

  lemma {:induction false} NoRepeatsFit(list: seq<string>, all: set<string>)
    requires NoRepeats(list) && Elements(list) <= all
    ensures |list| <= |all|
  {
    if list != [] {
      var init, p := list[..|list| - 1], list[|list| - 1];
      assert p in list;
      forall q | q in Elements(init) ensures q in all - {p} {
        var i :| 0 <= i < |init| && init[i] == q;
        assert list[i] == q;
      }
      NoRepeatsFit(init, all - {p});
    }
  }

  /** The rows of a query, or the names of a directory, in an order of the environment's choosing. */
  method Rows(s: set<string>) returns (rows: seq<string>)
    ensures Elements(rows) == s
  {
    rows := [];
    var todo := s;
    while todo != {}
      invariant Elements(rows) + todo == s
      decreases |todo|
    {
      var p :| p in todo;
      todo := todo - {p};
      rows := rows + [p];
    }
  }

  method Add(list: seq<string>, p: string) returns (more: seq<string>)
    requires NoRepeats(list)
    ensures NoRepeats(more) && Elements(more) == Elements(list) + {p} && list <= more
  {
    for i := 0 to |list|
      invariant p !in list[..i]
    {
      if list[i] == p {
        return list;
      }
    }
    assert list[..|list|] == list;
    return list + [p];
  }

  method Deduplicated(list: seq<string>) returns (once: seq<string>)
    ensures NoRepeats(once) && Elements(once) == Elements(list)
  {
    once := AddAll([], list);
  }

  /** Adds the rows one by one, after what is there already. */
  method AddAll(list: seq<string>, rows: seq<string>) returns (more: seq<string>)
    requires NoRepeats(list)
    ensures NoRepeats(more) && Elements(more) == Elements(list) + Elements(rows) && list <= more
  {
    more := list;
    for i := 0 to |rows|
      invariant NoRepeats(more) && Elements(more) == Elements(list) + Elements(rows[..i]) && list <= more
    {
      assert rows[..i + 1] == rows[..i] + [rows[i]];
      more := Add(more, rows[i]);
    }
    assert rows[..|rows|] == rows;
  }

  ghost function Targets(refs: set<(string, string)>): set<string> {
    set r <- refs :: r.1
  }

  /** The search so far: everything found is live, and what was processed has its references found. */
  ghost predicate Searched(roots: set<string>, refs: set<(string, string)>, found: set<string>, done: set<string>) {
    && roots <= found <= roots + Targets(refs)
    && (forall p <- found :: Live(roots, refs, p))
    && (forall r <- refs :: r.0 in done ==> r.1 in found)
  }

  lemma SearchStarts(roots: set<string>, refs: set<(string, string)>)
    ensures Searched(roots, refs, roots, {})
  {
    forall p <- roots ensures Live(roots, refs, p) {
      RootIsLive(roots, refs, p);
    }
  }

  function ReferencesOf(refs: set<(string, string)>, p: string): set<string> {
    set r <- refs | r.0 == p :: r.1
  }

  lemma SearchGoesOn(roots: set<string>, refs: set<(string, string)>, found: set<string>, done: set<string>,
      cur: string, more: set<string>, doneToo: set<string>)
    requires Searched(roots, refs, found, done) && cur in found
    requires more == found + ReferencesOf(refs, cur) && doneToo == done + {cur}
    ensures Searched(roots, refs, more, doneToo)
  {
    forall q <- ReferencesOf(refs, cur) ensures Live(roots, refs, q) && q in Targets(refs) {
      assert (cur, q) in refs;
      ReferenceIsLive(roots, refs, cur, q);
      assert (cur, q).1 == q;
    }
    forall r <- refs | r.0 == cur ensures r.1 in more {
      assert r.1 in ReferencesOf(refs, cur);
    }
  }

  lemma SearchEnds(roots: set<string>, refs: set<(string, string)>, found: set<string>)
    requires Searched(roots, refs, found, found)
    ensures forall p :: p in found <==> Live(roots, refs, p)
  {
    ClosedHoldsLive(found, roots, refs);
  }

  method ListedPaths(pkgs: seq<Pkg>) returns (paths: seq<string>)
    ensures Elements(paths) == StorePaths(pkgs)
  {
    paths := [];
    for j := 0 to |pkgs|
      invariant Elements(paths) == StorePaths(pkgs[..j])
    {
      var p := pkgs[j];
      assert pkgs[..j + 1] == pkgs[..j] + [p];
      assert StorePaths(pkgs[..j + 1]) == StorePaths(pkgs[..j]) + if p.storePath.Some? then {p.storePath.value} else {};
      if p.storePath.Some? {
        paths := paths + [p.storePath.value];
      }
    }
    assert pkgs[..|pkgs|] == pkgs;
  }

  class Collector {
    const db: GenDb.Db
    var valid: set<string>
    var refs: set<(string, string)>
    var dirs: set<string>

    constructor (db: GenDb.Db, valid: set<string>, refs: set<(string, string)>, dirs: set<string>)
      ensures this.db == db && this.valid == valid && this.refs == refs && this.dirs == dirs
    {
      this.db, this.valid, this.refs, this.dirs := db, valid, refs, dirs;
    }

    function Now(): Snapshot
      reads this, db
    {
      Snapshot(db.OnDisk(), valid, refs, dirs)
    }

    /** The foreign keys of the database. */
    ghost predicate RefsAreValid()
      reads this
    {
      forall r <- refs :: r.0 in valid && r.1 in valid
    }

    method GatherRoots() returns (roots: seq<string>)
      ensures Elements(roots) == Roots(db.OnDisk())
      ensures forall path :: path in roots <==> exists id, j :: ListedAt(db.gens, id, j, path)
    {
      var ids := db.List();
      roots := [];
      ghost var d := db.OnDisk();
      for i := 0 to |ids|
        invariant forall p :: p in roots <==> exists k :: 0 <= k < i && p in StorePaths(GenDb.ReadPackages(d, ids[k]))
      {
        var more := ListedPaths(GenDb.ReadPackages(db.OnDisk(), ids[i]));
        assert forall p :: p in more <==> p in Elements(more);
        roots := roots + more;
      }
      forall p | p in Roots(d) ensures p in roots {
        var id :| id in d.gens && p in StorePaths(GenDb.ReadPackages(d, id));
        assert id in ids;
      }
      forall path ensures path in roots <==> exists id, j :: ListedAt(db.gens, id, j, path) {
        RootsAreListed(d, path);
        assert path in roots <==> path in Elements(roots);
      }
    }

    /** Processes one path of the list. */
    method Expand(found: seq<string>, processed: nat, ghost roots: set<string>) returns (more: seq<string>)
      requires processed < |found| && NoRepeats(found)
      requires Searched(roots, refs, Elements(found), Elements(found[..processed]))
      ensures processed < |more| && NoRepeats(more)
      ensures Searched(roots, refs, Elements(more), Elements(more[..processed + 1]))
    {
      var cur := found[processed];
      assert cur in Elements(found);
      var rows := Rows(ReferencesOf(refs, cur));
      more := AddAll(found, rows);
      NextPrefix(found, more, processed);
      SearchGoesOn(roots, refs, Elements(found), Elements(found[..processed]), cur, Elements(more),
          Elements(more[..processed + 1]));
    }

    /** Breadth first: the list is its own queue. */
    method Closure(roots: seq<string>) returns (found: seq<string>)
      ensures forall p :: p in found <==> Live(Elements(roots), refs, p)
    {
      found := Deduplicated(roots);
      ghost var start := Elements(roots);
      SearchStarts(start, refs);
      assert Elements(found[..0]) == {};
      var processed := 0;
      while processed < |found|
        invariant processed <= |found| && NoRepeats(found)
        invariant Searched(start, refs, Elements(found), Elements(found[..processed]))
        decreases |start + Targets(refs)| - processed
      {
        NoRepeatsFit(found, start + Targets(refs));
        found := Expand(found, processed, start);
        processed := processed + 1;
      }
      assert found[..processed] == found;
      SearchEnds(start, refs, Elements(found));
    }

    /** The database's paths that are not in the closure. */
    method DeadPaths(closure: seq<string>) returns (dead: seq<string>)
      ensures Elements(dead) == valid - Elements(closure)
    {
      var rows := Rows(valid);
      dead := [];
      for i := 0 to |rows|
        invariant Elements(dead) == Elements(rows[..i]) - Elements(closure)
      {
        NextPrefix(rows, rows, i);
        assert rows[i] in closure <==> rows[i] in Elements(closure);
        if rows[i] !in closure {
          NextPrefix(dead + [rows[i]], dead + [rows[i]], |dead|);
          assert (dead + [rows[i]])[..|dead| + 1] == dead + [rows[i]] && (dead + [rows[i]])[..|dead|] == dead;
          dead := dead + [rows[i]];
        }
      }
      assert rows[..|rows|] == rows;
    }

    method RemoveDir(p: string)
      modifies this`dirs
      ensures dirs == old(dirs) - {p}
    {
      dirs := dirs - {p};
    }

    /** Deleting the row of a path deletes its references both ways. */
    method Unregister(p: string)
      modifies this`valid, this`refs
      ensures valid == old(valid) - {p}
      ensures refs == set r | r in old(refs) && r.0 != p && r.1 != p
    {
      valid := valid - {p};
      refs := set r | r in refs && r.0 != p && r.1 != p;
    }

    method RemoveDead(dead: seq<string>)
      modifies this`dirs, this`valid, this`refs
      ensures dirs == old(dirs) - Elements(dead) && valid == old(valid) - Elements(dead)
      ensures refs == set r | r in old(refs) && r.0 !in dead && r.1 !in dead
    {
      for i := 0 to |dead|
        invariant dirs == old(dirs) - Elements(dead[..i]) && valid == old(valid) - Elements(dead[..i])
        invariant forall r :: r in refs <==> r in old(refs) && r.0 !in dead[..i] && r.1 !in dead[..i]
      {
        NextPrefix(dead, dead, i);
        assert dead[..i + 1] == dead[..i] + [dead[i]];
        RemoveDir(dead[i]);
        Unregister(dead[i]);
      }
      assert dead[..|dead|] == dead;
    }

    /** Removes the scanned directories that the database does not know and nothing keeps. */
    method RemoveOrphans(closure: seq<string>, roots: seq<string>)
      modifies this`dirs
      ensures dirs == set p | p in old(dirs) && (!Scanned(p) || p in valid || p in closure || p in roots)
    {
      var known := Rows(valid);
      var names := Rows(dirs);
      for i := 0 to |names|
        invariant forall p :: p in dirs <==>
          p in old(dirs) && (p !in names[..i] || !Scanned(p) || p in valid || p in closure || p in roots)
      {
        var p := names[i];
        assert names[..i + 1] == names[..i] + [p];
        assert p in known <==> p in Elements(known);
        if Scanned(p) && p !in known && p !in closure && p !in roots {
          RemoveDir(p);
        }
      }
      forall p | p in old(dirs) ensures p in names {
        assert p in Elements(names);
      }
      assert names[..|names|] == names;
    }

    lemma Explain(s: Snapshot)
      requires Now() == Collected(s)
      ensures forall id, j, path, q :: ListedLeadsTo(s.db.gens, s.refs, id, j, path, q) ==>
        (q in s.dirs ==> q in dirs) && (q in s.valid ==> q in valid)
      ensures forall q <- valid ::
        q in s.valid && exists id, j, path :: ListedLeadsTo(s.db.gens, s.refs, id, j, path, q)
      ensures forall name :: name != "" && name[0] != '.' && '/' !in name && "/nix/store/" + name in dirs ==>
        exists id, j, path :: ListedLeadsTo(s.db.gens, s.refs, id, j, path, "/nix/store/" + name)
    {
      forall id, j, path, q | ListedLeadsTo(s.db.gens, s.refs, id, j, path, q)
        ensures (q in s.dirs ==> q in dirs) && (q in s.valid ==> q in valid)
      {
        ListedIsLive(s.db, s.refs, id, j, path, q);
      }
      forall q <- valid ensures q in s.valid && exists id, j, path :: ListedLeadsTo(s.db.gens, s.refs, id, j, path, q) {
        LiveIsListed(s.db, s.refs, q);
      }
      forall name | name != "" && name[0] != '.' && '/' !in name && "/nix/store/" + name in dirs
        ensures exists id, j, path :: ListedLeadsTo(s.db.gens, s.refs, id, j, path, "/nix/store/" + name)
      {
        ScannedIsChild(name);
        assert Live(Roots(s.db), s.refs, "/nix/store/" + name);
        LiveIsListed(s.db, s.refs, "/nix/store/" + name);
      }
    }

    /** Afterwards exactly what the generations present at the start list or reach is left of what the database
        or the scan knows; current and pinned generations are left of the generations. */
    method Collect()
      requires RefsAreValid() && db as object != this as object
      modifies this, db
      ensures Now() == Collected(old(Now()))
      ensures forall p <- old(dirs) :: Live(Roots(old(db.OnDisk())), old(refs), p) ==> p in dirs
      ensures forall p <- dirs :: Scanned(p) ==> Live(Roots(old(db.OnDisk())), old(refs), p)
      // nothing that a package of any generation leads to is deleted
      ensures forall id, j, path, q :: ListedLeadsTo(old(db.gens), old(refs), id, j, path, q) ==>
        (q in old(dirs) ==> q in dirs) && (q in old(valid) ==> q in valid)
      // and nothing else is left of the database and of the store's visible children
      ensures forall q <- valid ::
        q in old(valid) && exists id, j, path :: ListedLeadsTo(old(db.gens), old(refs), id, j, path, q)
      ensures forall name :: name != "" && name[0] != '.' && '/' !in name && "/nix/store/" + name in dirs ==>
        exists id, j, path :: ListedLeadsTo(old(db.gens), old(refs), id, j, path, "/nix/store/" + name)
      ensures RefsAreValid()
    {
      ghost var s := Now();
      var roots := GatherRoots();
      var closure := [];
      if |roots| > 0 {
        closure := Closure(roots);
      } else {
        ClosedHoldsLive({}, {}, refs);
      }
      var dead := DeadPaths(closure);
      RemoveDead(dead);
      RemoveOrphans(closure, roots);
      db.CleanGenerations();
      forall p <- roots ensures p in closure {
        assert p in Elements(roots);
        RootIsLive(Elements(roots), s.refs, p);
      }
      LeavesCollected(s, closure, Elements(dead), Now());
      Explain(s);
    }
  }
}
