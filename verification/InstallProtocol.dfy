/** Any number of install processes interleaving their lock, read, write and unlock steps. */
module InstallProtocol {
  import opened Common
  import opened Manifest
  import opened Carry
  import opened GenDb

  /** Where a process stands. `Writing` has done `k` of the disk writes of its commit. */
  datatype Pc =
    | Start
    | Refused
    | Holding
    | Knows(current: int)
    | Read(pkgs: seq<Pkg>)
    | Writing(parent: int, pkgs: seq<Pkg>, k: nat)
    | Unlocking(id: int)
    | Done(id: int)

  datatype Proc = Proc(targets: seq<Target>, pc: Pc)

  /** A commit that reached its last write, and the disk it started from. */
  datatype Install = Install(pid: nat, before: Disk, id: int, pkgs: seq<Pkg>)

  /** The shared disk, the holder of the lock file and the processes. For the proofs: the disk as the last
      complete commit left it, and the log of complete commits. */
  datatype World = World(disk: Disk, lock: Option<nat>, procs: seq<Proc>, base: Disk, log: seq<Install>)

  predicate InCriticalSection(pc: Pc) {
    pc.Holding? || pc.Knows? || pc.Read? || pc.Writing? || pc.Unlocking?
  }

  function WithPc(w: World, pid: nat, pc: Pc): World
    requires pid < |w.procs|
  {
    w.(procs := w.procs[pid := w.procs[pid].(pc := pc)])
  }

  /** What write number `k` of a commit of `pkgs` on top of generation `parent` makes of the disk. The protocol
      works whatever it is; the database's own is `CommitStep`. */
  type Writes = (Disk, nat, int, seq<Pkg>) -> Disk

  /** The disk after the first `k` writes. */
  function After(write: Writes, d: Disk, k: nat, pkgs: seq<Pkg>): Disk {
    if k == 0 then d else write(After(write, d, k - 1, pkgs), k - 1, Current(d), pkgs)
  }

  /** The next step of one process. A lock that is taken refuses it for good. */
  function Next(write: Writes, w: World, pid: nat): (after: World)
    ensures |after.procs| == |w.procs|
  {
    if pid >= |w.procs| then w
    else match w.procs[pid].pc
    case Start =>
      if w.lock.None? then WithPc(w, pid, Holding).(lock := Some(pid)) else WithPc(w, pid, Refused)
    case Holding => WithPc(w, pid, Knows(Current(w.disk)))
    case Knows(current) => WithPc(w, pid, Read(Merge(ReadPackages(w.disk, current), w.procs[pid].targets)))
    case Read(pkgs) => WithPc(w, pid, Writing(Current(w.disk), pkgs, 0))
    case Writing(parent, pkgs, k) =>
      if k >= COMMIT_STEPS then w
      else
        var after := w.(disk := write(w.disk, k, parent, pkgs));
        if k + 1 < COMMIT_STEPS then WithPc(after, pid, Writing(parent, pkgs, k + 1))
        else
          var e := Install(pid, w.base, parent + 1, pkgs);
          WithPc(after, pid, Unlocking(parent + 1)).(base := after.disk, log := w.log + [e])
    case Unlocking(id) => WithPc(w, pid, Done(id)).(lock := None)
    case Done(_) => w
    case Refused => w
  }

  /** The world after a schedule: which process moves next is up to the environment. */
  function Run(write: Writes, w: World, schedule: seq<nat>): World {
    if schedule == [] then w else Next(write, Run(write, w, schedule[..|schedule| - 1]), schedule[|schedule| - 1])
  }

  function Fresh(d: Disk, targets: seq<seq<Target>>): World {
    World(d, None, seq(|targets|, i requires 0 <= i < |targets| => Proc(targets[i], Start)), d, [])
  }

  function CurrentPackages(d: Disk): seq<Pkg> {
    ReadPackages(d, Current(d))
  }

  // ---- what the log says ----

  /** Each logged commit started from the disk its predecessor left; the last one left `base`. */
  ghost predicate Chained(write: Writes, d: Disk, log: seq<Install>, base: Disk) {
    if log == [] then base == d
    else
      var e := log[|log| - 1];
      Chained(write, d, log[..|log| - 1], e.before) && base == After(write, e.before, COMMIT_STEPS, e.pkgs)
  }

  /** A commit took the next number and the packages then current, overridden by its process's targets. */
  ghost predicate EntryFits(procs: seq<Proc>, e: Install) {
    && e.pid < |procs|
    && e.id == Current(e.before) + 1
    && e.pkgs == Merge(CurrentPackages(e.before), procs[e.pid].targets)
    && (procs[e.pid].pc == Unlocking(e.id) || procs[e.pid].pc == Done(e.id))
  }

  ghost predicate Logged(w: World, pid: nat) {
    exists i {:trigger w.log[i]} :: 0 <= i < |w.log| && w.log[i].pid == pid
  }

  ghost predicate Once(log: seq<Install>) {
    forall i, j :: 0 <= i < j < |log| ==> log[i].pid != log[j].pid
  }

  /** What the lock holder knows of the disk, which only it changes. */
  ghost predicate HolderFits(write: Writes, w: World, pid: nat)
    requires pid < |w.procs|
  {
    var merged := Merge(CurrentPackages(w.base), w.procs[pid].targets);
    match w.procs[pid].pc
    case Holding => w.disk == w.base
    case Knows(current) => w.disk == w.base && current == Current(w.base)
    case Read(pkgs) => w.disk == w.base && pkgs == merged
    case Writing(parent, pkgs, k) =>
      parent == Current(w.base) && pkgs == merged && k < COMMIT_STEPS && w.disk == After(write, w.base, k, pkgs)
    case Unlocking(_) => w.disk == w.base
    case _ => false
  }

  ghost predicate Inv(write: Writes, d: Disk, w: World) {
    && Chained(write, d, w.log, w.base)
    && (forall i :: 0 <= i < |w.log| ==> EntryFits(w.procs, w.log[i]))
    && Once(w.log)
    && (forall pid :: 0 <= pid < |w.procs| && (w.procs[pid].pc.Unlocking? || w.procs[pid].pc.Done?) ==> Logged(w, pid))
    && (forall pid :: 0 <= pid < |w.procs| && InCriticalSection(w.procs[pid].pc) ==> w.lock == Some(pid))
    && (w.lock.None? ==> w.disk == w.base)
    && (w.lock.Some? ==> w.lock.value < |w.procs| && HolderFits(write, w, w.lock.value))
  }

  lemma NotLogged(write: Writes, d: Disk, w: World, pid: nat)
    requires Inv(write, d, w) && pid < |w.procs| && !w.procs[pid].pc.Unlocking? && !w.procs[pid].pc.Done?
    ensures !Logged(w, pid)
  {
    forall i | 0 <= i < |w.log| ensures w.log[i].pid != pid {
      assert EntryFits(w.procs, w.log[i]);
    }
  }

  /** A step that writes no log entry. */
  lemma QuietStep(write: Writes, d: Disk, w: World, after: World, pid: nat)
    requires Inv(write, d, w) && pid < |w.procs|
    requires !w.procs[pid].pc.Unlocking? && !w.procs[pid].pc.Done?
    requires |after.procs| == |w.procs| && after.procs == w.procs[pid := after.procs[pid]]
    requires after.log == w.log && after.base == w.base
    requires after.procs[pid].targets == w.procs[pid].targets
    requires !after.procs[pid].pc.Unlocking? && !after.procs[pid].pc.Done?
    requires InCriticalSection(after.procs[pid].pc) ==> after.lock == Some(pid) && HolderFits(write, after, pid)
    requires w.lock.None? || w.lock == Some(pid) || (w.lock == after.lock && w.disk == after.disk)
    requires after.lock.None? ==> after.disk == after.base
    requires after.lock == Some(pid) ==> HolderFits(write, after, pid)
    requires after.lock.Some? ==> after.lock == Some(pid) || after.lock == w.lock
    ensures Inv(write, d, after)
  {
    NotLogged(write, d, w, pid);
    forall i | 0 <= i < |after.log| ensures EntryFits(after.procs, after.log[i]) {
      assert EntryFits(w.procs, w.log[i]);
      assert w.log[i].pid != pid;
    }
    forall p | 0 <= p < |after.procs| && (after.procs[p].pc.Unlocking? || after.procs[p].pc.Done?)
      ensures Logged(after, p)
    {
      assert Logged(w, p);
      var i :| 0 <= i < |w.log| && w.log[i].pid == p;
      assert after.log[i].pid == p;
    }
  }

  lemma LogStep(write: Writes, d: Disk, w: World, after: World, pid: nat, e: Install)
    requires Inv(write, d, w) && w.lock == Some(pid) && pid < |w.procs| && w.procs[pid].pc.Writing? && e.pid == pid
    requires after.procs == w.procs[pid := w.procs[pid].(pc := Unlocking(e.id))] && after.log == w.log + [e]
    requires after.lock == w.lock && after.disk == after.base && Chained(write, d, after.log, after.base)
    requires EntryFits(after.procs, e)
    ensures Inv(write, d, after)
  {
    NotLogged(write, d, w, pid);
    forall i | 0 <= i < |after.log| ensures EntryFits(after.procs, after.log[i]) {
      if i < |w.log| {
        assert EntryFits(w.procs, w.log[i]);
        assert w.log[i].pid != pid;
      }
    }
    forall p | 0 <= p < |after.procs| && (after.procs[p].pc.Unlocking? || after.procs[p].pc.Done?)
      ensures Logged(after, p)
    {
      if p == pid {
        assert after.log[|w.log|].pid == p;
      } else {
        assert Logged(w, p);
        var i :| 0 <= i < |w.log| && w.log[i].pid == p;
        assert after.log[i].pid == p;
      }
    }
  }

  lemma LastWrite(write: Writes, d: Disk, w: World, pid: nat)
    requires Inv(write, d, w) && pid < |w.procs| && w.procs[pid].pc.Writing? && w.procs[pid].pc.k == COMMIT_STEPS - 1
    ensures Inv(write, d, Next(write, w, pid))
  {
    var after := Next(write, w, pid);
    var pkgs := w.procs[pid].pc.pkgs;
    var e := Install(pid, w.base, Current(w.base) + 1, pkgs);
    assert HolderFits(write, w, pid);
    assert after.log == w.log + [e] && (w.log + [e])[..|w.log|] == w.log;
    assert after.base == After(write, w.base, COMMIT_STEPS, pkgs);
    LogStep(write, d, w, after, pid, e);
  }

  lemma ReleaseStep(write: Writes, d: Disk, w: World, after: World, pid: nat, id: int)
    requires Inv(write, d, w) && pid < |w.procs| && w.lock == Some(pid) && w.procs[pid].pc == Unlocking(id)
    requires after == World(w.disk, None, w.procs[pid := w.procs[pid].(pc := Done(id))], w.base, w.log)
    ensures Inv(write, d, after)
  {
    forall i | 0 <= i < |after.log| ensures EntryFits(after.procs, after.log[i]) {
      assert EntryFits(w.procs, w.log[i]);
    }
    forall p | 0 <= p < |after.procs| && (after.procs[p].pc.Unlocking? || after.procs[p].pc.Done?)
      ensures Logged(after, p)
    {
      assert Logged(w, p);
      var i :| 0 <= i < |w.log| && w.log[i].pid == p;
      assert after.log[i].pid == p;
    }
  }

  lemma LockStep(write: Writes, d: Disk, w: World, pid: nat)
    requires Inv(write, d, w) && pid < |w.procs| && w.procs[pid].pc.Start?
    ensures Inv(write, d, Next(write, w, pid))
  {
    QuietStep(write, d, w, Next(write, w, pid), pid);
  }

  lemma ReadStep(write: Writes, d: Disk, w: World, pid: nat)
    requires Inv(write, d, w) && pid < |w.procs|
    requires w.procs[pid].pc.Holding? || w.procs[pid].pc.Knows? || w.procs[pid].pc.Read?
    ensures Inv(write, d, Next(write, w, pid))
  {
    QuietStep(write, d, w, Next(write, w, pid), pid);
  }

  lemma WriteStep(write: Writes, d: Disk, w: World, pid: nat)
    requires Inv(write, d, w) && pid < |w.procs| && w.procs[pid].pc.Writing? && w.procs[pid].pc.k < COMMIT_STEPS - 1
    ensures Inv(write, d, Next(write, w, pid))
  {
    QuietStep(write, d, w, Next(write, w, pid), pid);
  }

  lemma NextInv(write: Writes, d: Disk, w: World, pid: nat)
    requires Inv(write, d, w)
    ensures Inv(write, d, Next(write, w, pid))
  {
    if pid < |w.procs| {
      match w.procs[pid].pc
      case Start => LockStep(write, d, w, pid);
      case Holding => ReadStep(write, d, w, pid);
      case Knows(_) => ReadStep(write, d, w, pid);
      case Read(_) => ReadStep(write, d, w, pid);
      case Writing(_, _, k) =>
        assert HolderFits(write, w, pid);
        if k < COMMIT_STEPS - 1 {
          WriteStep(write, d, w, pid);
        } else {
          LastWrite(write, d, w, pid);
        }
      case Unlocking(id) =>
        assert HolderFits(write, w, pid);
        ReleaseStep(write, d, w, Next(write, w, pid), pid, id);
      case Done(_) =>
      case Refused =>
    }
  }

  lemma {:induction false} RunInv(write: Writes, d: Disk, targets: seq<seq<Target>>, schedule: seq<nat>)
    ensures Inv(write, d, Run(write, Fresh(d, targets), schedule))
    ensures |Run(write, Fresh(d, targets), schedule).procs| == |targets|
  {
    if schedule != [] {
      RunInv(write, d, targets, schedule[..|schedule| - 1]);
      NextInv(write, d, Run(write, Fresh(d, targets), schedule[..|schedule| - 1]), schedule[|schedule| - 1]);
    }
  }

  // ---- progress ----

  function Times(pid: nat, n: nat): seq<nat> {
    seq(n, _ => pid)
  }

  lemma OneMoreStep(write: Writes, w: World, pid: nat, n: nat)
    ensures Run(write, w, Times(pid, n + 1)) == Next(write, Run(write, w, Times(pid, n)), pid)
  {
    assert Times(pid, n + 1)[..n] == Times(pid, n);
  }

  lemma {:induction false} AloneReads(write: Writes, w: World, pid: nat)
    requires pid < |w.procs| && w.procs[pid].pc.Start? && w.lock.None?
    ensures var merged := Merge(CurrentPackages(w.disk), w.procs[pid].targets);
      Run(write, w, Times(pid, 3)) == WithPc(w, pid, Read(merged)).(lock := Some(pid))
  {
    assert Times(pid, 0) == [];
    OneMoreStep(write, w, pid, 0);
    OneMoreStep(write, w, pid, 1);
    OneMoreStep(write, w, pid, 2);
  }

  lemma {:induction false} AloneWrites(write: Writes, w: World, pid: nat, k: nat)
    requires pid < |w.procs| && w.procs[pid].pc.Start? && w.lock.None? && k < COMMIT_STEPS
    ensures var merged := Merge(CurrentPackages(w.disk), w.procs[pid].targets);
      Run(write, w, Times(pid, k + 4)) ==
      WithPc(w, pid, Writing(Current(w.disk), merged, k)).(lock := Some(pid), disk := After(write, w.disk, k, merged))
  {
    if k == 0 {
      AloneReads(write, w, pid);
    } else {
      AloneWrites(write, w, pid, k - 1);
    }
    OneMoreStep(write, w, pid, k + 3);
  }

  /** With the lock free, a process that runs alone gets it and finishes its install in twelve steps. */
  lemma AloneFinishes(write: Writes, w: World, pid: nat)
    requires pid < |w.procs| && w.procs[pid].pc.Start? && w.lock.None?
    ensures
      var end := Run(write, w, Times(pid, COMMIT_STEPS + 5));
      var merged := Merge(CurrentPackages(w.disk), w.procs[pid].targets);
      && end.procs == w.procs[pid := w.procs[pid].(pc := Done(Current(w.disk) + 1))] && end.lock.None?
      && end.disk == After(write, w.disk, COMMIT_STEPS, merged)
      && end.log == w.log + [Install(pid, w.base, Current(w.disk) + 1, merged)]
  {
    AloneWrites(write, w, pid, COMMIT_STEPS - 1);
    OneMoreStep(write, w, pid, COMMIT_STEPS + 3);
    OneMoreStep(write, w, pid, COMMIT_STEPS + 4);
  }

  // ---- the theorems, for every schedule of every number of processes ----

  /** At most one process is between its lock and its unlock, and the lock names it. */
  lemma MutualExclusion(write: Writes, d: Disk, targets: seq<seq<Target>>, schedule: seq<nat>)
    ensures var w := Run(write, Fresh(d, targets), schedule);
      forall p, q :: 0 <= p < |w.procs| && 0 <= q < |w.procs|
        && InCriticalSection(w.procs[p].pc) && InCriticalSection(w.procs[q].pc)
        ==> p == q && w.lock == Some(p)
  {
    RunInv(write, d, targets, schedule);
  }

  /** The log's targets laid over each other in the order of their commits. */
  function LoggedOverrides(targets: seq<seq<Target>>, log: seq<Install>): map<string, Pkg> {
    if log == [] then map[]
    else
      var e := log[|log| - 1];
      LoggedOverrides(targets, log[..|log| - 1]) + if e.pid < |targets| then Overrides(targets[e.pid]) else map[]
  }

  /** Every commit took the next number and laid its process's targets over the packages then current. */
  ghost predicate LogFits(targets: seq<seq<Target>>, log: seq<Install>) {
    forall e <- log ::
      && e.pid < |targets|
      && e.id == Current(e.before) + 1
      && e.pkgs == Merge(CurrentPackages(e.before), targets[e.pid])
  }

  lemma {:induction false} ProcsKeepTargets(write: Writes, d: Disk, targets: seq<seq<Target>>, schedule: seq<nat>)
    ensures var procs := Run(write, Fresh(d, targets), schedule).procs;
      |procs| == |targets| && forall p :: 0 <= p < |procs| ==> procs[p].targets == targets[p]
  {
    if schedule != [] {
      ProcsKeepTargets(write, d, targets, schedule[..|schedule| - 1]);
    }
  }

  lemma {:induction false} WritesAre(d: Disk, pkgs: seq<Pkg>, k: nat)
    ensures After(CommitStep, d, k, pkgs) == CommitPrefix(d, k, pkgs)
    ensures k == COMMIT_STEPS ==> After(CommitStep, d, k, pkgs) == Step(d, Commit(pkgs))
  {
    if k > 0 {
      WritesAre(d, pkgs, k - 1);
    }
    WritesMakeTheCommit(d, pkgs);
  }

  lemma {:induction false} LogMeaning(d: Disk, targets: seq<seq<Target>>, log: seq<Install>, base: Disk)
    requires Chained(CommitStep, d, log, base) && LogFits(targets, log) && Current(d) >= 0
    ensures Current(base) == Current(d) + |log|
    ensures Meaning(CurrentPackages(base)) == Meaning(CurrentPackages(d)) + LoggedOverrides(targets, log)
    ensures Distinct(CurrentPackages(d)) ==> Distinct(CurrentPackages(base))
  {
    if log == [] {
      assert Meaning(CurrentPackages(d)) + map[] == Meaning(CurrentPackages(d));
    } else {
      var init, e := log[..|log| - 1], log[|log| - 1];
      assert e in log;
      LogMeaning(d, targets, init, e.before);
      WritesAre(e.before, e.pkgs, COMMIT_STEPS);
      assert CurrentPackages(base) == e.pkgs;
      MergeOverrides(CurrentPackages(e.before), targets[e.pid]);
      Associates(Meaning(CurrentPackages(d)), LoggedOverrides(targets, init), Overrides(targets[e.pid]));
    }
  }

  lemma Associates(m: map<string, Pkg>, over: map<string, Pkg>, more: map<string, Pkg>)
    ensures (m + over) + more == m + (over + more)
  {
  }

  /** No successful install is lost: between critical sections the current package list means what it meant
      at first, overridden by the targets of every finished process, each counted once and in commit order. */
  lemma NoInstallIsLost(d: Disk, targets: seq<seq<Target>>, schedule: seq<nat>)
    requires Current(d) >= 0
    ensures var w := Run(CommitStep, Fresh(d, targets), schedule);
      && Chained(CommitStep, d, w.log, w.base)
      && LogFits(targets, w.log)
      && Once(w.log)
      && (w.lock.None? ==>
        && Meaning(CurrentPackages(w.disk)) == Meaning(CurrentPackages(d)) + LoggedOverrides(targets, w.log)
        && (Distinct(CurrentPackages(d)) ==> Distinct(CurrentPackages(w.disk)))
        && forall p :: 0 <= p < |w.procs| ==> (w.procs[p].pc.Done? <==> Logged(w, p)))
  {
    var w := Run(CommitStep, Fresh(d, targets), schedule);
    RunInv(CommitStep, d, targets, schedule);
    ProcsKeepTargets(CommitStep, d, targets, schedule);
    forall i | 0 <= i < |w.log| ensures EntryFits(w.procs, w.log[i]) {}
    assert LogFits(targets, w.log);
    LogMeaning(d, targets, w.log, w.base);
    if w.lock.None? {
      DoneIffLogged(CommitStep, d, w);
    }
  }

  lemma DoneIffLogged(write: Writes, d: Disk, w: World)
    requires Inv(write, d, w) && w.lock.None?
    ensures forall p :: 0 <= p < |w.procs| ==> (w.procs[p].pc.Done? <==> Logged(w, p))
  {
    forall p | 0 <= p < |w.procs| ensures w.procs[p].pc.Done? <==> Logged(w, p) {
      if !w.procs[p].pc.Done? {
        NotLogged(write, d, w, p);
      }
    }
  }

  lemma {:induction false} ChainIsSound(d: Disk, log: seq<Install>, base: Disk)
    requires Sound(d) && Chained(CommitStep, d, log, base)
    ensures Sound(base)
  {
    if log != [] {
      var e := log[|log| - 1];
      ChainIsSound(d, log[..|log| - 1], e.before);
      WritesAre(e.before, e.pkgs, COMMIT_STEPS);
      StepIsSound(e.before, Commit(e.pkgs));
    }
  }

  /** A reader that takes no lock finds, at any moment, no generation or the whole of the last one committed. */
  lemma ReadersSeeWholeGenerations(d: Disk, targets: seq<seq<Target>>, schedule: seq<nat>)
    requires Sound(d)
    ensures var w := Run(CommitStep, Fresh(d, targets), schedule);
      Sees(w.disk) == Nothing || (Sees(w.disk).Whole? && Sees(w.disk) == Sees(w.base))
  {
    var w := Run(CommitStep, Fresh(d, targets), schedule);
    RunInv(CommitStep, d, targets, schedule);
    ChainIsSound(d, w.log, w.base);
    if w.lock.Some? && w.procs[w.lock.value].pc.Writing? {
      var pc := w.procs[w.lock.value].pc;
      WritesAre(w.base, pc.pkgs, pc.k);
      CommitShowsOldNoneOrNew(w.base, pc.k, pc.pkgs);
    }
  }

  ghost predicate Intact(d: Disk, e: Install, id: int) {
    e.id == id && id in d.gens && d.gens[id].manifest == Complete(e.pkgs)
  }

  lemma CommitAddsNewest(d: Disk, e: Install)
    requires NewestIsCurrent(d) && e.id == Current(d) + 1
    ensures var after := Step(d, Commit(e.pkgs));
      NewestIsCurrent(after) && Current(after) == Current(d) + 1 && Intact(after, e, e.id)
  {
  }

  lemma CommitKeepsIntact(d: Disk, pkgs: seq<Pkg>, e: Install, id: int)
    requires NewestIsCurrent(d) && Intact(d, e, id)
    ensures Intact(Step(d, Commit(pkgs)), e, id)
  {
  }

  /** Starting from a database whose newest generation is current, commits are numbered one after the other
      and every one of them keeps its manifest. */
  lemma {:induction false} InstallsStay(d: Disk, targets: seq<seq<Target>>, log: seq<Install>, base: Disk)
    requires Chained(CommitStep, d, log, base) && LogFits(targets, log) && NewestIsCurrent(d)
    ensures NewestIsCurrent(base) && Current(base) == Current(d) + |log|
    ensures forall i :: 0 <= i < |log| ==> Intact(base, log[i], Current(d) + 1 + i)
  {
    if log != [] {
      var init, e := log[..|log| - 1], log[|log| - 1];
      assert e in log;
      InstallsStay(d, targets, init, e.before);
      WritesAre(e.before, e.pkgs, COMMIT_STEPS);
      CommitAddsNewest(e.before, e);
      forall i | 0 <= i < |log| ensures Intact(base, log[i], Current(d) + 1 + i) {
        if i < |init| {
          assert init[i] == log[i];
          CommitKeepsIntact(e.before, e.pkgs, log[i], Current(d) + 1 + i);
        }
      }
    }
  }
}
