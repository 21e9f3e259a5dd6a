/** What the machine does with a whole stream of stops: traps of a breakpoint, with signals and events in between. */
module StreamLaws {
  import opened Common
  import opened Breakpoints
  import opened DebugRegisters
  import opened Machine
  import opened MachineLaws
  import opened Registers
  import opened Trace
  import opened TraceLaws
  import opened Words

  /** No enabled watchpoint fires with this stop. */
  predicate Clean(ws: seq<Watch>, stop: Stop) {
    !WatchHit(ws, DebugHits(stop))
  }

  /** A stop the user does not get to see: an event, or a signal whose stop flag is off. */
  predicate Passing(w: World, stop: Stop) {
    && !Ended(stop) && Clean(w.watches, stop)
    && (stop.Forked? || (RealSignal(stop.sig) && stop.sig < |w.stopFlags| && !w.stopFlags[stop.sig]))
  }

  predicate AllPassing(w: World, stops: seq<Stop>) {
    forall k :: 0 <= k < |stops| ==> Passing(w, stops[k])
  }

  /** A trap with rip just behind `a`. */
  predicate TrapAt(w: World, stop: Stop, a: nat) {
    IsTrap(stop) && !stop.traceTrap && Clean(w.watches, stop) && Rewound(stop.regs).rip == a
  }

  /** Stops that pass, a trap, and the stop that ends the step off the breakpoint. */
  datatype Round = Round(passing: seq<Stop>, trap: Stop, step: Stop)

  predicate RoundAt(w: World, r: Round, a: nat) {
    && AllPassing(w, r.passing)
    && TrapAt(w, r.trap, a)
    && !Ended(r.step) && Clean(w.watches, r.step)
  }

  function Stream(rounds: seq<Round>): seq<Stop> {
    if rounds == [] then [] else rounds[0].passing + [rounds[0].trap, rounds[0].step] + Stream(rounds[1..])
  }

  predicate HoldsAt(c: Cond, trap: Stop) {
    trap.Stopped? && CondTrue(c, Rewound(trap.regs))
  }

  /** How many of the traps make the condition true. */
  function Trues(rounds: seq<Round>, c: Cond): nat {
    if rounds == [] then 0 else (if HoldsAt(c, rounds[0].trap) then 1 else 0) + Trues(rounds[1..], c)
  }

  /** Slot `i` is a user's breakpoint, and no watchpoint bit is left over. */
  ghost predicate Set(w: World, i: nat) {
    && TableOk(w.bps, w.pending, w.orig) && |w.stopFlags| == NSIG
    && i < |w.bps| && w.bps[i].used && !w.bps[i].temporary
    && !WatchHit(w.watches, w.dr6)
  }

  /** Waiting for the next stop, with every breakpoint in place. */
  ghost predicate Waits(w: World, i: nat) {
    Set(w, i) && w.phase == Running && w.pending == 0
  }

  predicate SameTables(w: World, v: World) {
    v.watches == w.watches && v.stopFlags == w.stopFlags && v.orig == w.orig
  }

  lemma {:induction false} CleanBits(ws: seq<Watch>, bits: set<nat>, more: set<nat>)
    ensures WatchHit(ws, bits + more) <==> WatchHit(ws, bits) || WatchHit(ws, more)
  {
  }

  lemma {:induction false} FoundAt(w: World, i: nat)
    requires Set(w, i)
    ensures FindBp(w.bps, w.bps[i].addr) == i
  {
  }

  lemma {:induction false} PassesOne(w: World, i: nat)
    requires Waits(w, i) && w.stops != [] && Passing(w, w.stops[0])
    ensures
      var v := React(w);
      Waits(v, i) && SameTables(w, v) && v.bps == w.bps && v.stops == w.stops[1..]
  {
    CleanBits(w.watches, w.dr6, DebugHits(w.stops[0]));
  }

  lemma {:induction false} PassesAll(w: World, i: nat, passing: seq<Stop>, rest: seq<Stop>) returns (v: World)
    requires Waits(w, i) && w.stops == passing + rest
    requires AllPassing(w, passing)
    ensures Run(w) == Run(v) && Waits(v, i) && SameTables(w, v) && v.bps == w.bps && v.stops == rest
    decreases |passing|
  {
    if passing == [] {
      v := w;
    } else {
      PassesOne(w, i);
      RunUnfolds(w);
      v := PassesAll(React(w), i, passing[1..], rest);
    }
  }

  function Counted(b: Bp, holds: bool): Bp {
    b.(hitCount := b.hitCount + 1,
       ignoreCount := if holds && b.ignoreCount > 0 then b.ignoreCount - 1 else b.ignoreCount)
  }

  lemma {:induction false} LiftedTable(w: World, i: nat, holds: bool)
    requires Waits(w, i)
    ensures TableOk(w.bps[i := Counted(w.bps[i], holds).(inserted := false)], w.bps[i].addr, w.orig)
  {
    var b := Counted(w.bps[i], holds).(inserted := false);
    Lift(w.bps, Overlay(w.orig, PlantedAddrs(w.bps)), w.orig, i, b);
  }

  lemma {:induction false} TrapReacts(w: World, i: nat)
    requires Waits(w, i) && w.stops != [] && TrapAt(w, w.stops[0], w.bps[i].addr)
    ensures
      var told := Arrive(w).(lastSig := SIGTRAP);
      var back := Dr6Read(told).(regs := Rewound(told.regs));
      React(w) ==
        if HitStops(back, back.bps[i]) then TrapShown(HitCounted(back, i)) else AutoContinued(HitCounted(back, i))
  {
    CleanBits(w.watches, w.dr6, DebugHits(w.stops[0]));
    FoundAt(w, i);
  }

  /** A hit as far as the tables go. */
  lemma {:induction false} HitShows(w: World, i: nat) returns (v: World)
    requires i < |w.bps|
    ensures v == if HitStops(w, w.bps[i]) then TrapShown(HitCounted(w, i)) else AutoContinued(HitCounted(w, i))
    ensures v.bps == w.bps[i := Counted(w.bps[i], CondTrue(w.bps[i].cond, w.regs)).(inserted := false)]
    ensures v.phase == if HitStops(w, w.bps[i]) then AtPrompt else SteppingOff(true)
    ensures v.pending == w.bps[i].addr && SameTables(w, v) && v.stops == w.stops && v.dr6 == w.dr6
    ensures v.regs.rip == w.regs.rip
  {
    v := if HitStops(w, w.bps[i]) then TrapShown(HitCounted(w, i)) else AutoContinued(HitCounted(w, i));
  }

  /** A trap of the breakpoint lifts it and counts; it stops the target if the condition holds and nothing is left to
      ignore. */
  lemma {:induction false} TrapIsCounted(w: World, i: nat)
    requires Waits(w, i) && w.stops != [] && TrapAt(w, w.stops[0], w.bps[i].addr)
    ensures
      var v := React(w);
      var holds := HoldsAt(w.bps[i].cond, w.stops[0]);
      && v.bps == w.bps[i := Counted(w.bps[i], holds).(inserted := false)]
      && v.phase == (if holds && w.bps[i].ignoreCount <= 0 then AtPrompt else SteppingOff(true))
      && v.pending == w.bps[i].addr && v.regs.rip == w.bps[i].addr
      && SameTables(w, v) && v.stops == w.stops[1..] && !WatchHit(v.watches, v.dr6)
  {
    CleanBits(w.watches, w.dr6, DebugHits(w.stops[0]));
    TrapReacts(w, i);
    var told := Arrive(w).(lastSig := SIGTRAP);
    var back := Dr6Read(told).(regs := Rewound(told.regs));
    var _ := HitShows(back, i);
  }

  lemma {:induction false} StepEnds(w: World, i: nat)
    requires Set(w, i) && w.phase == SteppingOff(true) && w.pending != 0
    requires w.stops != [] && !Ended(w.stops[0]) && Clean(w.watches, w.stops[0])
    ensures
      var v := React(w);
      && Waits(v, i) && SameTables(w, v) && v.stops == w.stops[1..]
      && v.bps == Replanted(w.bps, w.pending)
  {
    CleanBits(w.watches, w.dr6, DebugHits(w.stops[0]));
    NotUsed(w.bps, w.pending);
    Replant(w.bps, w.pending, Overlay(w.orig, PlantedAddrs(w.bps)), w.orig, FindBp(w.bps, w.pending));
  }

  predicate Unseen(b: Bp, trap: Stop) {
    !HoldsAt(b.cond, trap) || b.ignoreCount > 0
  }

  /** A trap the user does not get to see, and the step off the breakpoint. */
  lemma {:induction false} TrapIsPassed(w: World, i: nat, trap: Stop, step: Stop, rest: seq<Stop>) returns (v: World)
    requires Waits(w, i) && w.stops == [trap, step] + rest
    requires TrapAt(w, trap, w.bps[i].addr) && !Ended(step) && Clean(w.watches, step) && Unseen(w.bps[i], trap)
    ensures Run(w) == Run(v) && Waits(v, i) && SameTables(w, v) && v.stops == rest
    ensures v.bps == w.bps[i := Counted(w.bps[i], HoldsAt(w.bps[i].cond, trap))]
  {
    var holds := HoldsAt(w.bps[i].cond, trap);
    TrapIsCounted(w, i);
    LiftedTable(w, i, holds);
    var off := React(w);
    RunUnfolds(w);
    StepEnds(off, i);
    FoundAt(off, i);
    RunUnfolds(off);
    v := React(off);
    assert w.bps[i].inserted;
  }

  lemma {:induction false} RoundIsPassed(w: World, i: nat, r: Round, rest: seq<Stop>) returns (v: World)
    requires Waits(w, i) && w.stops == r.passing + [r.trap, r.step] + rest
    requires RoundAt(w, r, w.bps[i].addr) && Unseen(w.bps[i], r.trap)
    ensures Run(w) == Run(v) && Waits(v, i) && SameTables(w, v) && v.stops == rest
    ensures v.bps == w.bps[i := Counted(w.bps[i], HoldsAt(w.bps[i].cond, r.trap))]
  {
    var u := PassesAll(w, i, r.passing, [r.trap, r.step] + rest);
    v := TrapIsPassed(u, i, r.trap, r.step, rest);
  }

  function CountedAll(b: Bp, n: nat, trues: nat): Bp {
    b.(hitCount := b.hitCount + n, ignoreCount := Less(b.ignoreCount, trues))
  }

  /** No more true traps than there are left to ignore. */
  predicate WithinIgnored(b: Bp, rounds: seq<Round>) {
    Trues(rounds, b.cond) <= if b.ignoreCount > 0 then b.ignoreCount else 0
  }

  ghost predicate RoundsAt(w: World, rounds: seq<Round>, a: nat) {
    forall k :: 0 <= k < |rounds| ==> RoundAt(w, rounds[k], a)
  }

  lemma {:induction false} IgnoredOneLess(b: Bp, rounds: seq<Round>)
    requires rounds != [] && WithinIgnored(b, rounds)
    ensures
      var u := Counted(b, HoldsAt(b.cond, rounds[0].trap));
      && Unseen(b, rounds[0].trap) && WithinIgnored(u, rounds[1..])
      && CountedAll(u, |rounds| - 1, Trues(rounds[1..], b.cond)) == CountedAll(b, |rounds|, Trues(rounds, b.cond))
  {
  }

  lemma {:induction false} RoundsStay(w: World, u: World, rounds: seq<Round>, a: nat)
    requires SameTables(w, u) && rounds != [] && RoundsAt(w, rounds, a)
    ensures RoundAt(w, rounds[0], a) && RoundsAt(u, rounds[1..], a)
  {
    forall k | 0 <= k < |rounds| - 1 ensures RoundAt(u, rounds[1..][k], a) {
      assert RoundAt(w, rounds[k + 1], a);
    }
  }

  /** As long as no more true traps came than the ignore count says, the target runs on, and every trap is counted. */
  lemma {:induction false} RoundsArePassed(w: World, i: nat, rounds: seq<Round>, rest: seq<Stop>) returns (v: World)
    requires Waits(w, i) && w.stops == Stream(rounds) + rest
    requires RoundsAt(w, rounds, w.bps[i].addr) && WithinIgnored(w.bps[i], rounds)
    ensures Run(w) == Run(v) && Waits(v, i) && SameTables(w, v) && v.stops == rest
    ensures v.bps == w.bps[i := CountedAll(w.bps[i], |rounds|, Trues(rounds, w.bps[i].cond))]
    decreases |rounds|
  {
    if rounds == [] {
      v := w;
    } else {
      var r, more := rounds[0], rounds[1..];
      assert w.stops == r.passing + [r.trap, r.step] + (Stream(more) + rest);
      IgnoredOneLess(w.bps[i], rounds);
      assert RoundAt(w, r, w.bps[i].addr);
      var u := RoundIsPassed(w, i, r, Stream(more) + rest);
      RoundsStay(w, u, rounds, w.bps[i].addr);
      v := RoundsArePassed(u, i, more, rest);
    }
  }

  /** A slot after `n` more hits, the last of which the user sees. */
  function Fired(b: Bp, n: nat): Bp {
    b.(inserted := false, hitCount := b.hitCount + n, ignoreCount := 0)
  }

  lemma {:induction false} LastTrapStops(w: World, i: nat, trap: Stop, rest: seq<Stop>) returns (v: World)
    requires Waits(w, i) && w.stops == [trap] + rest && TrapAt(w, trap, w.bps[i].addr)
    requires HoldsAt(w.bps[i].cond, trap) && w.bps[i].ignoreCount == 0
    ensures v == Run(w)
    ensures
      && v.phase == AtPrompt && v.stops == rest && v.pending == w.bps[i].addr && v.regs.rip == w.bps[i].addr
      && v.bps == w.bps[i := Fired(w.bps[i], 1)]
  {
    TrapIsCounted(w, i);
    RunUnfolds(w);
    v := Run(w);
  }

  /** Passing stops and a trap that is seen. */
  lemma {:induction false} StopsAtSeenTrap(w: World, i: nat, last: seq<Stop>, trap: Stop, rest: seq<Stop>)
    returns (v: World)
    requires Waits(w, i) && w.stops == last + ([trap] + rest) && AllPassing(w, last)
    requires TrapAt(w, trap, w.bps[i].addr) && HoldsAt(w.bps[i].cond, trap) && w.bps[i].ignoreCount == 0
    ensures v == Run(w)
    ensures
      && v.phase == AtPrompt && v.stops == rest && v.pending == w.bps[i].addr && v.regs.rip == w.bps[i].addr
      && v.bps == w.bps[i := Fired(w.bps[i], 1)]
  {
    var u := PassesAll(w, i, last, [trap] + rest);
    assert u.bps == w.bps && TrapAt(u, trap, w.bps[i].addr);
    v := LastTrapStops(u, i, trap, rest);
  }

  /** What is still to come: rounds, passing stops and a trap that is seen. */
  ghost predicate Ahead(w: World, b: Bp, rounds: seq<Round>, last: seq<Stop>, trap: Stop) {
    && RoundsAt(w, rounds, b.addr) && AllPassing(w, last)
    && TrapAt(w, trap, b.addr) && HoldsAt(b.cond, trap)
    && b.ignoreCount >= 0 && Trues(rounds, b.cond) == b.ignoreCount
  }

  lemma {:induction false} AheadAlike(w: World, u: World, b: Bp, rounds: seq<Round>, last: seq<Stop>, trap: Stop)
    requires Ahead(w, b, rounds, last, trap) && SameTables(w, u)
    ensures Ahead(u, b, rounds, last, trap)
  {
    forall k | 0 <= k < |rounds| ensures RoundAt(u, rounds[k], b.addr) {
      assert RoundAt(w, rounds[k], b.addr);
    }
  }

  /** Ignore count N: the target runs on through any number of traps with N true ones among them, and the debugger
      stops at the next true trap. Every trap is counted, none is left to ignore, and no stop beyond is taken. */
  lemma {:induction false} StopsAtTrapAfterIgnored(w: World, i: nat, rounds: seq<Round>, last: seq<Stop>, trap: Stop,
                                                   rest: seq<Stop>) returns (v: World)
    requires Waits(w, i) && w.stops == Stream(rounds) + (last + ([trap] + rest))
    requires Ahead(w, w.bps[i], rounds, last, trap)
    ensures v == Run(w)
    ensures
      && v.phase == AtPrompt && v.stops == rest && v.pending == w.bps[i].addr && v.regs.rip == w.bps[i].addr
      && v.bps == w.bps[i := Fired(w.bps[i], |rounds| + 1)]
  {
    var u := RoundsArePassed(w, i, rounds, last + ([trap] + rest));
    assert AllPassing(u, last) && TrapAt(u, trap, w.bps[i].addr);
    v := StopsAtSeenTrap(u, i, last, trap, rest);
    OneMoreFires(w.bps, u.bps, v.bps, i, |rounds|, Trues(rounds, w.bps[i].cond));
  }

  lemma {:induction false} OneMoreFires(before: seq<Bp>, counted: seq<Bp>, fired: seq<Bp>, i: nat, n: nat, trues: nat)
    requires i < |before| && counted == before[i := CountedAll(before[i], n, trues)]
    requires fired == counted[i := Fired(counted[i], 1)]
    ensures fired == before[i := Fired(before[i], n + 1)]
  {
  }

  /** And not before: while the true traps are no more than N, the debugger still waits when the stops run out. */
  lemma {:induction false} WaitsWhileIgnored(w: World, i: nat, rounds: seq<Round>)
    requires Waits(w, i) && w.stops == Stream(rounds)
    requires RoundsAt(w, rounds, w.bps[i].addr) && WithinIgnored(w.bps[i], rounds)
    ensures Run(w).phase == Running && Run(w).stops == []
    ensures Run(w).bps == w.bps[i := CountedAll(w.bps[i], |rounds|, Trues(rounds, w.bps[i].cond))]
  {
    assert w.stops == Stream(rounds) + [];
    var _ := RoundsArePassed(w, i, rounds, []);
  }

  /** The exception: a watchpoint bit that came with the stop ending the step off a breakpoint, which is dropped, hides
      the next trap of any breakpoint. The trap is shown as a watchpoint's, uncounted; the INT3 stays in place and rip
      behind it. */
  lemma {:induction false} LeftOverBitHidesTrap(w: World, i: nat, step: Stop, trap: Stop, rest: seq<Stop>)
    requires Set(w, i) && w.phase == SteppingOff(true) && w.pending == w.bps[i].addr
    requires w.stops == [step, trap] + rest && !Ended(step) && !Clean(w.watches, step)
    requires IsTrap(trap)
    ensures
      var v := Run(w);
      && v.phase == AtPrompt && v.stops == rest && v.pending == 0 && v.regs == trap.regs
      && v.bps == w.bps[i := w.bps[i].(inserted := true)]
  {
    FoundAt(w, i);
    CleanBits(w.watches, w.dr6, DebugHits(step));
    CleanBits(w.watches, w.dr6 + DebugHits(step), DebugHits(trap));
    RunUnfolds(w);
    RunUnfolds(React(w));
    RunUnfolds(React(React(w)));
  }

  lemma {:induction false} CommandThenContinue(w: World, c: Command)
    requires w.phase == AtPrompt && Do(w, c).phase == AtPrompt
    ensures DoAll(w, [c, Continue]) == Run(Continued(Do(w, c)))
  {
    var u := Do(w, c);
    assert [c, Continue][1..] == [Continue];
    assert DoAll(w, [c, Continue]) == DoAll(u, [Continue]);
    assert [Continue][1..] == [];
  }

  lemma {:induction false} IgnoreSets(w: World, i: nat, n: nat) returns (u: World)
    requires w.phase == AtPrompt && Set(w, i) && n < 0x8000_0000
    ensures u == Do(w, Ignore(w.bps[i].addr, n)) && u.phase == AtPrompt && Set(u, i)
    ensures u == w.(bps := w.bps[i := w.bps[i].(ignoreCount := n)], log := u.log)
  {
    FoundAt(w, i);
    u := Do(w, Ignore(w.bps[i].addr, n));
    assert u == w.(bps := w.bps[i := w.bps[i].(ignoreCount := n)], log := u.log);
    Recount(w.bps, w.pending, Overlay(w.orig, PlantedAddrs(w.bps)), w.orig, i, u.bps[i]);
  }

  /** What the step off a breakpoint takes from the stops: nothing if none is lifted, else one stop that does not end
      the target. */
  predicate StepTakes(w: World, off: seq<Stop>) {
    if w.pending == 0 then off == [] else |off| == 1 && !Ended(off[0]) && Clean(w.watches, off[0])
  }

  /** `dc`, as far as the resume that leaves every breakpoint in place. */
  lemma {:induction false} ContinueGoes(w: World, i: nat, off: seq<Stop>, more: seq<Stop>) returns (going: World)
    requires w.phase == AtPrompt && Set(w, i) && StepTakes(w, off) && w.stops == off + more
    ensures Run(Continued(w)) == Run(going) && Waits(going, i) && SameTables(w, going)
    ensures going.stops == more && going.bps == Replanted(w.bps, w.pending)
  {
    going := Continued(w);
    if w.pending == 0 {
      NotUsed(w.bps, 0);
    } else {
      StepEnds(going, i);
      RunUnfolds(going);
      going := React(going);
    }
  }

  /** `w` with the ignore count set, and running. */
  ghost predicate OnItsWay(w: World, going: World, i: nat, n: nat, more: seq<Stop>) {
    && Waits(going, i) && SameTables(w, going) && going.stops == more && i < |w.bps|
    && going.bps == Replanted(w.bps, w.pending)[i := going.bps[i]]
    && going.bps[i] == w.bps[i].(inserted := true, ignoreCount := n)
  }

  /** A slot's counters do not matter for what is put back. */
  lemma {:induction false} ReplantedUpdate(w: World, u: World, i: nat, b: Bp)
    requires Set(w, i) && Set(u, i) && u.pending == w.pending && u.bps == w.bps[i := b]
    requires b == w.bps[i].(ignoreCount := b.ignoreCount)
    ensures Replanted(u.bps, u.pending) == Replanted(w.bps, w.pending)[i := b.(inserted := true)]
  {
    SameSlotFound(w.bps, u.bps, w.pending, i);
    NotUsed(w.bps, w.pending);
    FoundAt(w, i);
    assert FindBp(w.bps, w.pending) != i ==> w.bps[i].inserted;
  }

  lemma {:induction false} SameSlotFound(bps: seq<Bp>, after: seq<Bp>, addr: nat, i: nat)
    requires i < |bps| == |after| && after == bps[i := after[i]]
    requires after[i].used == bps[i].used && after[i].addr == bps[i].addr
    ensures FindBp(after, addr) == FindBp(bps, addr)
  {
    var j, k := FindBp(bps, addr), FindBp(after, addr);
    assert forall m :: 0 <= m < |bps| ==> after[m].used == bps[m].used && after[m].addr == bps[m].addr;
  }

  /** `db <addr> ignore <n>`, then `dc`, as far as the resume. */
  lemma {:induction false} IgnoredAndGoing(w: World, i: nat, n: nat, off: seq<Stop>, more: seq<Stop>)
    returns (going: World)
    requires w.phase == AtPrompt && Set(w, i) && n < 0x8000_0000 && StepTakes(w, off) && w.stops == off + more
    ensures DoAll(w, [Ignore(w.bps[i].addr, n), Continue]) == Run(going)
    ensures OnItsWay(w, going, i, n, more)
  {
    var u := IgnoreSets(w, i, n);
    CommandThenContinue(w, Ignore(w.bps[i].addr, n));
    going := ContinueGoes(u, i, off, more);
    ReplantedUpdate(w, u, i, u.bps[i]);
  }

  lemma {:induction false} StopsOnItsWay(w: World, going: World, i: nat, n: nat, rounds: seq<Round>, last: seq<Stop>,
                                         trap: Stop, rest: seq<Stop>) returns (v: World)
    requires OnItsWay(w, going, i, n, Stream(rounds) + (last + ([trap] + rest)))
    requires Ahead(w, w.bps[i].(ignoreCount := n), rounds, last, trap)
    ensures v == Run(going) && v.phase == AtPrompt && v.stops == rest && v.regs.rip == w.bps[i].addr
    ensures v.bps == Replanted(w.bps, w.pending)[i := Fired(w.bps[i], |rounds| + 1)]
  {
    AheadAlike(w, going, w.bps[i].(ignoreCount := n), rounds, last, trap);
    v := StopsAtTrapAfterIgnored(going, i, rounds, last, trap, rest);
  }

  /** The same from the prompt, wherever it was given: `db <addr> ignore <n>`, then `dc`. A breakpoint just hit, this
      one or another, is stepped off and back in memory first. */
  lemma {:induction false} IgnoreThenContinue(w: World, i: nat, n: nat, off: seq<Stop>, rounds: seq<Round>,
                                              last: seq<Stop>, trap: Stop, rest: seq<Stop>) returns (v: World)
    requires w.phase == AtPrompt && Set(w, i) && n < 0x8000_0000 && StepTakes(w, off)
    requires w.stops == off + (Stream(rounds) + (last + ([trap] + rest)))
    requires Ahead(w, w.bps[i].(ignoreCount := n), rounds, last, trap)
    ensures v == DoAll(w, [Ignore(w.bps[i].addr, n), Continue])
    ensures v.phase == AtPrompt && v.stops == rest && v.regs.rip == w.bps[i].addr
    ensures v.bps == Replanted(w.bps, w.pending)[i := Fired(w.bps[i], |rounds| + 1)]
  {
    var going := IgnoredAndGoing(w, i, n, off, Stream(rounds) + (last + ([trap] + rest)));
    v := StopsOnItsWay(w, going, i, n, rounds, last, trap, rest);
  }

  /** A signal that ends the step off a breakpoint is lost, its pass flag notwithstanding: the resume that follows, at
      once or when the user asks for it, delivers nothing. */
  lemma {:induction false} SignalEndingStepIsLost(w: World)
    requires Inv(w) && w.phase.SteppingOff? && w.stops != []
    requires w.stops[0].Stopped? && RealSignal(w.stops[0].sig) && w.passFlags[w.stops[0].sig]
    ensures
      var v := React(w);
      var going := if w.phase.thenRun then v else Continued(v);
      going.phase == Running && going.log.last.Cont? && going.log.last.deliver == 0
  {
  }

  // ---- where a trap leaves rip ----

  /** A trap leaves rip alone exactly if a watchpoint or a single step explains it. Any other moves it back by one, a
      stray one with no breakpoint there as well. */
  lemma {:induction false} TrapRewindsIff(w: World)
    requires w.phase == Running && w.stops != [] && IsTrap(w.stops[0])
    ensures
      var stop := w.stops[0];
      var explained := stop.traceTrap || WatchHit(w.watches, w.dr6 + stop.debugHits);
      && React(w).regs.rip == (if explained then stop.regs.rip else (stop.regs.rip + TWO_64 - 1) % TWO_64)
      && (stop.regs.rip < TWO_64 ==> (React(w).regs.rip == stop.regs.rip <==> explained))
  {
    var stop := w.stops[0];
    var told := Arrive(w).(lastSig := SIGTRAP);
    assert React(w) == Trapped(told, stop.traceTrap);
  }

  /** A program's own INT3 at 0x1000, with no breakpoint set: the processor has gone past it, and the user gets the
      prompt with rip on it again. */
  lemma {:induction false} StrayTrapRewinds(orig: Memory, regs: Regs, at: Regs, rest: seq<Stop>)
    requires at.rip == 0x1001
    ensures
      var v := DoAll(Fresh(orig, regs, [Stopped(SIGTRAP, false, {}, at)] + rest), [Continue]);
      v.phase == AtPrompt && v.stops == rest && v.bps == NO_BPS && v.regs == at.(rip := 0x1000)
  {
    var w := Fresh(orig, regs, [Stopped(SIGTRAP, false, {}, at)] + rest);
    var going := Continued(w);
    assert [Continue][1..] == [];
    assert UsedAddrs(NO_BPS) == {};
    NotUsed(NO_BPS, 0x1000);
    assert Rewound(at).rip == 0x1000;
    RunUnfolds(going);
    assert Run(React(going)) == React(going);
  }

  // ---- sessions ----

  /** In every session, the hit count a breakpoint shows is the number of its traps, and what is left of its ignore
      count is the count given less the true ones. */
  lemma {:induction false} CountersMatchRecord(w: World, i: nat)
    requires Inv(w) && w.phase != Gone && i < |w.bps| && w.bps[i].used
    ensures w.bps[i].hitCount == Traps(w.log, w.bps[i].addr)
    ensures w.bps[i].ignoreCount == Less(Budget(w.log, w.bps[i].addr), TrueTraps(w.log, w.bps[i].addr))
  {
    HitCountIsTraps(w.log, w.bps[i].addr);
    IgnoreLeftIsRemainder(w.log, w.bps[i].addr);
  }
}
