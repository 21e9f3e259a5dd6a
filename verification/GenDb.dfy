/** The generation database: numbered directories, a `current` link, and the steps that change them. */
module GenDb {
  import opened Common
  import opened Manifest
  import Diff

  datatype File = Missing | Partial | Complete(pkgs: seq<Pkg>)

  datatype DiffFile = DiffFile(parent: int, total: nat, added: seq<Diff.Entry>, removed: seq<Diff.Entry>,
      changed: seq<Diff.Change>)

  /** The directory of one generation. */
  datatype Gen = Gen(manifest: File, diff: Option<DiffFile>, pinned: bool)

  /** What is on disk: the generations, and the number the `current` link names. */
  datatype Disk = Disk(gens: map<int, Gen>, link: Option<int>)

  function Current(d: Disk): int {
    if d.link.Some? then d.link.value else 0
  }

  /** The package list of a generation; an unreadable or half-written manifest reads as empty. */
  function ReadPackages(d: Disk, id: int): seq<Pkg> {
    if id > 0 && id in d.gens && d.gens[id].manifest.Complete? then d.gens[id].manifest.pkgs else []
  }

  function Entries(pkgs: seq<Pkg>): (entries: seq<Diff.Entry>)
    ensures |entries| == |pkgs|
    ensures forall i :: 0 <= i < |pkgs| ==> entries[i].name == pkgs[i].name && entries[i].version == pkgs[i].version
  {
    seq(|pkgs|, i requires 0 <= i < |pkgs| => Diff.Entry(pkgs[i].name, pkgs[i].version))
  }

  function DiffOf(parent: int, before: seq<Pkg>, pkgs: seq<Pkg>): DiffFile {
    var was, now := Entries(before), Entries(pkgs);
    DiffFile(parent, |pkgs|,
             Diff.Added(now, Diff.Versions(was)),
             Diff.Removed(Diff.Reverse(was), Diff.EntryNames(now)),
             Diff.Changed(now, Diff.Versions(was)))
  }

  // ---- the steps of a commit ----

  const COMMIT_STEPS := 7

  /** One disk write of a commit on top of generation `parent`: make the directory, truncate the manifest,
      finish it, truncate the diff, finish it, drop the link, make the link. */
  function CommitStep(d: Disk, k: nat, parent: int, pkgs: seq<Pkg>): Disk {
    var id := parent + 1;
    var g := if id in d.gens then d.gens[id] else Gen(Missing, None, false);
    match k
    case 0 => d.(gens := d.gens[id := g])
    case 1 => d.(gens := d.gens[id := g.(manifest := Partial)])
    case 2 => d.(gens := d.gens[id := g.(manifest := Complete(pkgs))])
    case 3 => d.(gens := d.gens[id := g.(diff := None)])
    case 4 => d.(gens := d.gens[id := g.(diff := Some(DiffOf(parent, ReadPackages(d, parent), pkgs)))])
    case 5 => d.(link := None)
    case 6 => d.(link := Some(id))
    case _ => d
  }

  /** The disk after the first `k` writes. */
  function CommitPrefix(d: Disk, k: nat, pkgs: seq<Pkg>): Disk {
    if k == 0 then d else CommitStep(CommitPrefix(d, k - 1, pkgs), k - 1, Current(d), pkgs)
  }

  // ---- what a reader of `current` finds ----

  datatype View = Nothing | Broken(id: int) | Whole(id: int, pkgs: seq<Pkg>)

  function Sees(d: Disk): View {
    match d.link
    case None => Nothing
    case Some(id) =>
      if id in d.gens && d.gens[id].manifest.Complete? then Whole(id, d.gens[id].manifest.pkgs) else Broken(id)
  }

  /** Each write touches the directory of the new generation only, and the link only at the end. */
  lemma {:induction false} PrefixShape(d: Disk, k: nat, pkgs: seq<Pkg>)
    requires 0 < k <= COMMIT_STEPS
    ensures var id, after := Current(d) + 1, CommitPrefix(d, k, pkgs);
      && id in after.gens
      && after.gens == d.gens[id := after.gens[id]]
      && after.gens[id].pinned == (id in d.gens && d.gens[id].pinned)
      && (k >= 3 ==> after.gens[id].manifest == Complete(pkgs))
      && (k >= 5 ==> after.gens[id].diff == Some(DiffOf(Current(d), ReadPackages(d, Current(d)), pkgs)))
      && after.link == (if k <= 5 then d.link else if k == 6 then None else Some(id))
  {
    if k > 1 {
      PrefixShape(d, k - 1, pkgs);
    }
  }

  /** What a commit amounts to once its writes are done. */
  function Committed(d: Disk, pkgs: seq<Pkg>): Disk {
    var parent := Current(d);
    var pinned := parent + 1 in d.gens && d.gens[parent + 1].pinned;
    var g := Gen(Complete(pkgs), Some(DiffOf(parent, ReadPackages(d, parent), pkgs)), pinned);
    Disk(d.gens[parent + 1 := g], Some(parent + 1))
  }

  lemma WritesMakeTheCommit(d: Disk, pkgs: seq<Pkg>)
    ensures CommitPrefix(d, COMMIT_STEPS, pkgs) == Committed(d, pkgs)
  {
    PrefixShape(d, COMMIT_STEPS, pkgs);
  }

  /** Until the link is dropped a reader sees the old generation, then none, then all of the new one. */
  lemma CommitShowsOldNoneOrNew(d: Disk, k: nat, pkgs: seq<Pkg>)
    requires k <= COMMIT_STEPS
    ensures Sees(CommitPrefix(d, k, pkgs)) ==
            if k <= 5 then Sees(d) else if k == 6 then Nothing else Whole(Current(d) + 1, pkgs)
  {
    if k > 0 {
      PrefixShape(d, k, pkgs);
    }
  }

  /** A process killed between dropping and making the link leaves no current generation, so the next
      commit is number 1 again, whatever generation 1 was. */
  lemma KilledWhileUnlinkedRestartsAtOne(d: Disk, pkgs: seq<Pkg>, later: seq<Pkg>)
    ensures var killed := CommitPrefix(d, 6, pkgs); var after := CommitPrefix(killed, COMMIT_STEPS, later);
      && Sees(killed) == Nothing && ReadPackages(killed, Current(killed)) == []
      && 1 in after.gens && after.gens[1].manifest == Complete(later) && after.link == Some(1)
  {
    CommitShowsOldNoneOrNew(d, 6, pkgs);
    PrefixShape(CommitPrefix(d, 6, pkgs), COMMIT_STEPS, later);
  }

  // ---- operations and runs ----

  datatype Op = Commit(pkgs: seq<Pkg>) | Rollback(id: int) | Pin(id: int) | Clean

  function KeptByClean(d: Disk): set<int> {
    set id <- d.gens.Keys | d.link.None? || d.link.value <= 0 || id == d.link.value || d.gens[id].pinned || id <= 0
  }

  function Step(d: Disk, op: Op): Disk {
    match op
    case Commit(pkgs) => Committed(d, pkgs)
    case Rollback(id) => if id in d.gens && d.link.Some? && d.link.value != 0 then d.(link := Some(id)) else d
    case Pin(id) => if id in d.gens then d.(gens := d.gens[id := d.gens[id].(pinned := true)]) else d
    case Clean => d.(gens := map id <- KeptByClean(d) :: d.gens[id])
  }

  function Run(d: Disk, ops: seq<Op>): Disk {
    if ops == [] then d else Step(Run(d, ops[..|ops| - 1]), ops[|ops| - 1])
  }

  ghost predicate Sound(d: Disk) {
    && (forall id <- d.gens :: id > 0 && d.gens[id].manifest.Complete?)
    && (d.link.Some? ==> d.link.value in d.gens)
  }

  /** In every run without a crash `current` is unset or names a generation with its whole manifest. */
  lemma {:induction false} RunIsSound(d: Disk, ops: seq<Op>)
    requires Sound(d)
    ensures Sound(Run(d, ops))
    ensures !Sees(Run(d, ops)).Broken?
  {
    if ops != [] {
      RunIsSound(d, ops[..|ops| - 1]);
      StepIsSound(Run(d, ops[..|ops| - 1]), ops[|ops| - 1]);
    }
  }

  lemma StepIsSound(d: Disk, op: Op)
    requires Sound(d)
    ensures Sound(Step(d, op))
  {
    match op
    case Commit(pkgs) =>
    case Rollback(id) =>
    case Pin(id) =>
    case Clean =>
  }

  /** A pinned generation outlives every run, collections included. */
  lemma {:induction false} PinnedSurvives(d: Disk, ops: seq<Op>, id: int)
    requires id in d.gens && d.gens[id].pinned
    ensures id in Run(d, ops).gens && Run(d, ops).gens[id].pinned
  {
    if ops != [] {
      PinnedSurvives(d, ops[..|ops| - 1], id);
      match ops[|ops| - 1]
      case Commit(pkgs) =>
      case Rollback(_) =>
      case Pin(_) =>
      case Clean =>
    }
  }

  // ---- are generations immutable? ----

  ghost predicate KeepsManifests(before: Disk, after: Disk) {
    forall id <- before.gens :: id in after.gens ==> after.gens[id].manifest == before.gens[id].manifest
  }

  /** A commit leaves every generation's manifest alone exactly when the number after `current` is free,
      or already holds the same packages. */
  lemma CommitKeepsManifestsIff(d: Disk, pkgs: seq<Pkg>)
    ensures KeepsManifests(d, Step(d, Commit(pkgs))) <==>
            (Current(d) + 1 in d.gens ==> d.gens[Current(d) + 1].manifest == Complete(pkgs))
  {
  }

  /** After a rollback the number is taken: the second generation is lost to the third commit. */
  lemma CommitAfterRollbackOverwrites(a: seq<Pkg>, b: seq<Pkg>, c: seq<Pkg>)
    requires b != c
    ensures var d := Run(Disk(map[], None), [Commit(a), Commit(b)]);
      && 2 in d.gens && d.gens[2].manifest == Complete(b)
      && 2 in Run(d, [Rollback(1), Commit(c)]).gens
      && Run(d, [Rollback(1), Commit(c)]).gens[2].manifest == Complete(c)
  {
    var empty := Disk(map[], None);
    assert [Commit(a), Commit(b)][..1] == [Commit(a)] && [Commit(a)][..0] == [];
    assert Run(empty, [Commit(a)]) == Step(empty, Commit(a));
    var d := Run(empty, [Commit(a), Commit(b)]);
    assert [Rollback(1), Commit(c)][..1] == [Rollback(1)] && [Rollback(1)][..0] == [];
    assert Run(d, [Rollback(1)]) == Step(d, Rollback(1));
  }

  ghost predicate NewestIsCurrent(d: Disk) {
    Sound(d) && forall id <- d.gens :: id <= Current(d)
  }

  ghost predicate NoRollback(ops: seq<Op>) {
    forall op <- ops :: !op.Rollback?
  }

  /** Without rollbacks numbers only grow: every manifest that survives the run is the one it had. */
  lemma {:induction false} WithoutRollbackManifestsStay(d: Disk, ops: seq<Op>)
    requires NewestIsCurrent(d) && NoRollback(ops)
    ensures NewestIsCurrent(Run(d, ops)) && Current(d) <= Current(Run(d, ops))
    ensures KeepsManifests(d, Run(d, ops))
    ensures Current(Run(d, ops)) + 1 !in Run(d, ops).gens
    ensures forall id <- Run(d, ops).gens :: id <= Current(d) ==> id in d.gens
  {
    if ops != [] {
      var init, op := ops[..|ops| - 1], ops[|ops| - 1];
      WithoutRollbackManifestsStay(d, init);
      assert op in ops;
      match op
      case Commit(pkgs) =>
      case Pin(_) =>
      case Clean =>
    }
  }

  // ---- the diffs on disk ----

  /** The diff beside a manifest patches the parent, when the parent is still there. */
  ghost predicate DiffFits(d: Disk, id: int)
    requires id in d.gens && d.gens[id].manifest.Complete?
  {
    && d.gens[id].diff.Some?
    && var f := d.gens[id].diff.value;
    && f.parent == id - 1
    && f.total == |d.gens[id].manifest.pkgs|
    && (id == 1 || id - 1 in d.gens ==>
      Patches(f, ReadPackages(d, id - 1), d.gens[id].manifest.pkgs))
  }

  ghost predicate Patches(f: DiffFile, before: seq<Pkg>, after: seq<Pkg>) {
    Diff.Delta(Entries(before), Entries(after), f.added, f.removed, f.changed)
  }

  /** Every stored diff patches its stored parent into its manifest. */
  ghost predicate AllDiffsFit(d: Disk) {
    Sound(d) && forall id <- d.gens :: DiffFits(d, id)
  }

  ghost predicate DiffsFit(d: Disk) {
    NewestIsCurrent(d) && AllDiffsFit(d)
  }

  ghost predicate DistinctCommits(ops: seq<Op>) {
    forall op <- ops :: op.Commit? ==> Diff.DistinctNames(Entries(op.pkgs))
  }

  /** Without rollbacks every stored diff stays a faithful delta of the manifests around it. */
  lemma {:induction false} DiffsStayFaithful(d: Disk, ops: seq<Op>)
    requires DiffsFit(d) && NoRollback(ops) && DistinctCommits(ops)
    ensures DiffsFit(Run(d, ops))
  {
    if ops != [] {
      var init, op := ops[..|ops| - 1], ops[|ops| - 1];
      DiffsStayFaithful(d, init);
      assert op in ops;
      if op.Commit? {
        CommitKeepsDiffsIff(Run(d, init), op.pkgs);
      } else {
        OthersKeepDiffs(Run(d, init), op);
      }
      WithoutRollbackManifestsStay(d, ops);
    }
  }

  lemma DiffOfIsDelta(parent: int, before: seq<Pkg>, pkgs: seq<Pkg>)
    requires Diff.DistinctNames(Entries(pkgs))
    ensures Patches(DiffOf(parent, before, pkgs), before, pkgs)
  {
    Diff.FirstOfReverse(Entries(before));
    Diff.ReverseHoldsSame(Entries(before));
    Diff.DiffIsDelta(Entries(before), Diff.Reverse(Entries(before)), Entries(pkgs));
  }

  /** The generation after the one a commit writes is absent, or its diff patches the new packages as well. */
  ghost predicate NextDiffFits(d: Disk, pkgs: seq<Pkg>) {
    var next := Current(d) + 2;
    next in d.gens && d.gens[next].manifest.Complete? && d.gens[next].diff.Some? ==>
      Patches(d.gens[next].diff.value, pkgs, d.gens[next].manifest.pkgs)
  }

  lemma {:induction false} DiffFitsAfterCommit(d: Disk, pkgs: seq<Pkg>, id: int)
    requires AllDiffsFit(d) && Diff.DistinctNames(Entries(pkgs)) && id in Committed(d, pkgs).gens
    ensures Committed(d, pkgs).gens[id].manifest.Complete?
    ensures DiffFits(Committed(d, pkgs), id) <==> (id == Current(d) + 2 ==> NextDiffFits(d, pkgs))
  {
    DiffOfIsDelta(Current(d), ReadPackages(d, Current(d)), pkgs);
    if id != Current(d) + 1 {
      assert DiffFits(d, id);
    }
  }

  /** A commit, after a rollback or not, keeps every stored diff fitting exactly when that of the next number fits the
      new packages. */
  lemma {:induction false} CommitKeepsDiffsIff(d: Disk, pkgs: seq<Pkg>)
    requires AllDiffsFit(d) && Diff.DistinctNames(Entries(pkgs))
    ensures AllDiffsFit(Step(d, Commit(pkgs))) <==> NextDiffFits(d, pkgs)
  {
    var after, next := Committed(d, pkgs), Current(d) + 2;
    StepIsSound(d, Commit(pkgs));
    forall id <- after.gens ensures DiffFits(after, id) <==> (id == next ==> NextDiffFits(d, pkgs)) {
      DiffFitsAfterCommit(d, pkgs, id);
    }
    assert next in d.gens <==> next in after.gens;
  }

  lemma {:induction false} OthersKeepDiffs(d: Disk, op: Op)
    requires AllDiffsFit(d) && !op.Commit?
    ensures AllDiffsFit(Step(d, op))
  {
    var after := Step(d, op);
    StepIsSound(d, op);
    forall id <- after.gens
      ensures id in d.gens && after.gens[id].manifest == d.gens[id].manifest && DiffFits(after, id)
    {
      assert DiffFits(d, id);
    }
  }

  /** In any run, rollbacks included, the diffs stay faithful as long as each commit meets that condition. */
  lemma {:induction false} DiffsStayWhileCommitsFit(d: Disk, ops: seq<Op>)
    requires AllDiffsFit(d) && DistinctCommits(ops)
    requires forall k :: 0 <= k < |ops| && ops[k].Commit? ==> NextDiffFits(Run(d, ops[..k]), ops[k].pkgs)
    ensures AllDiffsFit(Run(d, ops))
  {
    if ops != [] {
      var n := |ops| - 1;
      var init := ops[..n];
      forall k | 0 <= k < n && init[k].Commit? ensures NextDiffFits(Run(d, init[..k]), init[k].pkgs) {
        assert init[..k] == ops[..k];
      }
      DiffsStayWhileCommitsFit(d, init);
      assert ops[n] in ops;
      if ops[n].Commit? {
        CommitKeepsDiffsIff(Run(d, init), ops[n].pkgs);
      } else {
        OthersKeepDiffs(Run(d, init), ops[n]);
      }
    }
  }

  /** Generations 1, 2 and 3, the last two with the same package, so that the diff of 3 is empty. */
  ghost predicate ThreeGenerations(d: Disk, p: Pkg) {
    && 1 in d.gens && 2 in d.gens && 3 in d.gens && d.link == Some(3)
    && d.gens[2].manifest == Complete([p]) && d.gens[3].manifest == Complete([p])
    && d.gens[3].diff == Some(DiffOf(2, [p], [p]))
  }

  lemma {:induction false} ThreeCommits(a: seq<Pkg>, p: Pkg) returns (d: Disk)
    ensures d == Committed(Committed(Committed(Disk(map[], None), a), [p]), [p]) && ThreeGenerations(d, p)
  {
    var d1 := Committed(Disk(map[], None), a);
    var d2 := Committed(d1, [p]);
    d := Committed(d2, [p]);
  }

  lemma {:induction false} RolledBackCommit(d: Disk, p: Pkg) returns (after: Disk)
    requires ThreeGenerations(d, p)
    ensures after == Run(d, [Rollback(1), Commit([])])
    ensures 3 in after.gens && after.gens[3] == d.gens[3] && 2 in after.gens && ReadPackages(after, 2) == []
  {
    assert [Rollback(1), Commit([])][..1] == [Rollback(1)] && [Rollback(1)][..0] == [];
    assert Run(d, [Rollback(1)]) == Step(d, Rollback(1));
    after := Run(d, [Rollback(1), Commit([])]);
  }

  /** Generations 2 and 3 hold the same package, so the diff of 3 is empty. After a rollback to 1 a commit of nothing
      replaces generation 2, and the diff of 3 no longer leads to its manifest. */
  lemma {:induction false} CommitAfterRollbackBreaksDiff(a: seq<Pkg>, p: Pkg) returns (d: Disk, after: Disk)
    ensures d == Committed(Committed(Committed(Disk(map[], None), a), [p]), [p])
    ensures after == Run(d, [Rollback(1), Commit([])])
    ensures 3 in d.gens && d.gens[3].manifest.Complete? && DiffFits(d, 3)
    ensures 3 in after.gens && after.gens[3] == d.gens[3] && 2 in after.gens && !DiffFits(after, 3)
  {
    d := ThreeCommits(a, p);
    after := RolledBackCommit(d, p);
    OnePackageDiffers(p);
  }

  lemma {:induction false} OnePackageDiffers(p: Pkg)
    ensures Patches(DiffOf(2, [p], [p]), [p], [p]) && !Patches(DiffOf(2, [p], [p]), [], [p])
  {
    var e := Entries([p]);
    assert e == [Diff.Entry(p.name, p.version)];
    DiffOfIsDelta(2, [p], [p]);
  }

  // ---- the code ----

  /** The states a commit leaves on disk, one after each write. */
  function CommitStates(d: Disk, pkgs: seq<Pkg>): seq<Disk> {
    seq(COMMIT_STEPS, k requires 0 <= k < COMMIT_STEPS => CommitPrefix(d, k + 1, pkgs))
  }

  lemma SameGens(a: map<int, Gen>, b: map<int, Gen>)
    requires forall id :: id in a <==> id in b
    requires forall id <- a :: a[id] == b[id]
    ensures a == b
  {
    forall id | id in a ensures id in b && a[id] == b[id] {}
    forall id | id in b ensures id in a && a[id] == b[id] {}
  }

  lemma HasElement(s: set<int>)
    requires s != {}
    ensures exists x :: x in s
  {
    if forall x :: x !in s {
      assert false;
    }
  }

  class Db {
    var gens: map<int, Gen>
    var link: Option<int>
    /** Every state the disk went through. */
    ghost var history: seq<Disk>

    constructor ()
      ensures OnDisk() == Disk(map[], None) && history == []
    {
      gens, link, history := map[], None, [];
    }

    function OnDisk(): Disk
      reads this
    {
      Disk(gens, link)
    }

    method Put(id: int, g: Gen)
      modifies this
      ensures gens == old(gens)[id := g] && link == old(link)
      ensures history == old(history) + [OnDisk()]
    {
      gens := gens[id := g];
      history := history + [OnDisk()];
    }

    method Unlink()
      modifies this
      ensures gens == old(gens) && link == None
      ensures history == old(history) + [OnDisk()]
    {
      link := None;
      history := history + [OnDisk()];
    }

    method Symlink(id: int)
      modifies this
      ensures gens == old(gens) && link == Some(id)
      ensures history == old(history) + [OnDisk()]
    {
      link := Some(id);
      history := history + [OnDisk()];
    }

    method WriteManifest(parent: int, pkgs: seq<Pkg>)
      modifies this
      ensures var d := old(OnDisk());
        var d1 := CommitStep(d, 0, parent, pkgs);
        var d2 := CommitStep(d1, 1, parent, pkgs);
        OnDisk() == CommitStep(d2, 2, parent, pkgs) && history == old(history) + [d1, d2, OnDisk()]
    {
      var id := parent + 1;
      Put(id, if id in gens then gens[id] else Gen(Missing, None, false));
      Put(id, gens[id].(manifest := Partial));
      Put(id, gens[id].(manifest := Complete(pkgs)));
    }

    method WriteDiff(parent: int, pkgs: seq<Pkg>)
      requires parent + 1 in gens
      modifies this
      ensures var d := old(OnDisk());
        var d1 := CommitStep(d, 3, parent, pkgs);
        OnDisk() == CommitStep(d1, 4, parent, pkgs) && history == old(history) + [d1, OnDisk()]
    {
      var id := parent + 1;
      Put(id, gens[id].(diff := None));
      var before := ReadPackages(OnDisk(), parent);
      var total, added, removed, changed := Diff.WriteDiff(Entries(before), Entries(pkgs));
      Put(id, gens[id].(diff := Some(DiffFile(parent, total, added, removed, changed))));
    }

    method Commit(pkgs: seq<Pkg>) returns (id: int)
      modifies this
      ensures id == Current(old(OnDisk())) + 1 == Current(OnDisk())
      ensures OnDisk() == Step(old(OnDisk()), Op.Commit(pkgs))
      // the new generation is whole and current, the others are left alone
      ensures link == Some(id) && id in gens && gens == old(gens)[id := gens[id]] && gens[id].manifest == Complete(pkgs)
      ensures gens[id].diff.Some? && gens[id].diff.value.parent == id - 1 && gens[id].diff.value.total == |pkgs|
      ensures gens[id].pinned == (id in old(gens) && old(gens)[id].pinned)
      ensures history == old(history) + CommitStates(old(OnDisk()), pkgs)
    {
      ghost var d := OnDisk();
      var parent := Current(OnDisk());
      WriteManifest(parent, pkgs);
      WriteDiff(parent, pkgs);
      Unlink();
      Symlink(parent + 1);
      id := parent + 1;
      UnrollPrefix(d, pkgs);
      WritesMakeTheCommit(d, pkgs);
      assert CommitStates(d, pkgs)[6] == CommitPrefix(d, COMMIT_STEPS, pkgs);
    }

    method Rollback(target: int) returns (ok: bool)
      modifies this
      ensures ok <==> target in old(gens)
      ensures gens == old(gens) && link == if ok then Some(target) else old(link)
      ensures history == old(history) + if ok then [Disk(gens, None), OnDisk()] else []
    {
      if target !in gens {
        return false;
      }
      Unlink();
      Symlink(target);
      return true;
    }

    method CmdRollback(target: int) returns (ok: bool)
      modifies this
      ensures OnDisk() == Step(old(OnDisk()), Op.Rollback(target))
      ensures gens == old(gens) && link == if ok then Some(target) else old(link)
      ensures ok <==> target in old(gens) && Current(old(OnDisk())) != 0
      ensures forall k :: |old(history)| <= k < |history| ==> Sees(history[k]) in {Nothing, Sees(OnDisk())}
    {
      if Current(OnDisk()) == 0 {
        return false;
      }
      ok := Rollback(target);
    }

    method Pin(id: int) returns (ok: bool)
      modifies this
      ensures OnDisk() == Step(old(OnDisk()), Op.Pin(id))
      ensures ok <==> id in old(gens)
      ensures link == old(link) && (!ok ==> gens == old(gens))
      ensures ok ==> gens == old(gens)[id := old(gens)[id].(pinned := true)]
    {
      if id !in gens {
        return false;
      }
      Put(id, gens[id].(pinned := true));
      return true;
    }

    /** The numbered directories, in no particular order. */
    method List() returns (ids: seq<int>)
      ensures forall id :: id in ids <==> id in gens && id > 0
    {
      ids := [];
      var todo: set<int> := set id <- gens.Keys | id > 0;
      while todo != {}
        invariant forall id :: (id in gens && id > 0) <==> (id in ids || id in todo)
        decreases |todo|
      {
        HasElement(todo);
        var next :| next in todo;
        todo := todo - {next};
        ids := ids + [next];
      }
    }

    /** The last part of a collection: every listed generation that is neither current nor pinned goes. */
    method CleanGenerations()
      modifies this
      ensures OnDisk() == Step(old(OnDisk()), Clean)
      // the numbered generations left are the current one and the pinned ones, unchanged
      ensures link == old(link)
      ensures forall id :: id in gens <==>
        id in old(gens) && (id <= 0 || Current(old(OnDisk())) <= 0 || link == Some(id) || old(gens)[id].pinned)
      ensures forall id <- gens :: gens[id] == old(gens)[id]
      // a reader of `current` sees the same after every deletion
      ensures old(history) <= history
      ensures forall k :: |old(history)| <= k < |history| ==> Sees(history[k]) == Sees(old(OnDisk()))
    {
      var current := Current(OnDisk());
      var ids := List();
      ghost var kept := KeptByClean(OnDisk());
      if current <= 0 {
        assert gens == Step(OnDisk(), Clean).gens;
        return;
      }
      for i := 0 to |ids|
        invariant link == old(link)
        invariant forall id <- gens :: id in old(gens) && gens[id] == old(gens)[id]
        invariant forall id <- gens :: id in kept || id in ids[i..]
        invariant kept <= gens.Keys && (current in old(gens) ==> current in gens)
        invariant old(history) <= history
        invariant forall k :: |old(history)| <= k < |history| ==> Sees(history[k]) == Sees(old(OnDisk()))
      {
        var gid := ids[i];
        assert ids[i..] == [gid] + ids[i + 1..];
        if gid in gens && gid != current && !gens[gid].pinned {
          gens := gens - {gid};
          history := history + [OnDisk()];
        }
      }
      assert ids[|ids|..] == [];
      SameGens(gens, Step(old(OnDisk()), Clean).gens);
    }

    method Perform(ops: seq<Op>)
      modifies this
      ensures OnDisk() == Run(old(OnDisk()), ops)
    {
      for i := 0 to |ops|
        invariant OnDisk() == Run(old(OnDisk()), ops[..i])
      {
        assert ops[..i + 1][..i] == ops[..i];
        match ops[i]
        case Commit(pkgs) => var _ := Commit(pkgs);
        case Rollback(id) => var _ := CmdRollback(id);
        case Pin(id) => var _ := Pin(id);
        case Clean => CleanGenerations();
      }
      assert ops[..|ops|] == ops;
    }
  }

  lemma UnrollPrefix(d: Disk, pkgs: seq<Pkg>)
    ensures var p := Current(d);
      var d1 := CommitStep(d, 0, p, pkgs);
      var d2 := CommitStep(d1, 1, p, pkgs);
      var d3 := CommitStep(d2, 2, p, pkgs);
      var d4 := CommitStep(d3, 3, p, pkgs);
      var d5 := CommitStep(d4, 4, p, pkgs);
      var d6 := CommitStep(d5, 5, p, pkgs);
      CommitStates(d, pkgs) == [d1, d2, d3, d4, d5, d6, CommitStep(d6, 6, p, pkgs)]
  {
    assert CommitPrefix(d, 1, pkgs) == CommitStep(d, 0, Current(d), pkgs);
    assert CommitPrefix(d, 2, pkgs) == CommitStep(CommitPrefix(d, 1, pkgs), 1, Current(d), pkgs);
    assert CommitPrefix(d, 3, pkgs) == CommitStep(CommitPrefix(d, 2, pkgs), 2, Current(d), pkgs);
    assert CommitPrefix(d, 4, pkgs) == CommitStep(CommitPrefix(d, 3, pkgs), 3, Current(d), pkgs);
    assert CommitPrefix(d, 5, pkgs) == CommitStep(CommitPrefix(d, 4, pkgs), 4, Current(d), pkgs);
    assert CommitPrefix(d, 6, pkgs) == CommitStep(CommitPrefix(d, 5, pkgs), 5, Current(d), pkgs);
  }
}
