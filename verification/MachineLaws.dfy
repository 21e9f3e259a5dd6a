/** The machine's record is lawful in every session: what it decides follows from what the record says. */
module MachineLaws {
  import opened Common
  import opened Breakpoints
  import opened DebugRegisters
  import opened Machine
  import opened Registers
  import opened Trace
  import opened Words

  // ---- the tables are what the record says ----

  /** The table holds exactly the known breakpoints. */
  ghost predicate Holds(bps: seq<Bp>, m: map<nat, Known>) {
    && m.Keys == UsedAddrs(bps)
    && forall i :: 0 <= i < |bps| && bps[i].used ==>
         m[bps[i].addr] == KnownAs(bps[i])
  }

  function KnownAs(b: Bp): Known {
    Known(b.temporary, b.cond, b.ignoreCount, b.hitCount)
  }

  lemma HoldsChanged(bps: seq<Bp>, pending: nat, orig: Memory, m: map<nat, Known>, i: nat, b: Bp)
    requires TableOk(bps, pending, orig) && Holds(bps, m)
    requires i < |bps| && bps[i].used && b.used && b.addr == bps[i].addr
    ensures Holds(bps[i := b], m[b.addr := KnownAs(b)])
  {
    var after := bps[i := b];
    assert after[i] == b;
    assert forall k :: 0 <= k < |bps| && k != i ==> after[k] == bps[k];
    assert b.addr in m;
  }

  lemma HoldsFreed(bps: seq<Bp>, pending: nat, orig: Memory, m: map<nat, Known>, i: nat, b: Bp)
    requires TableOk(bps, pending, orig) && Holds(bps, m)
    requires i < |bps| && bps[i].used && !b.used
    ensures Holds(bps[i := b], m - {bps[i].addr})
  {
    var after := bps[i := b];
    assert forall k :: 0 <= k < |bps| && k != i ==> after[k] == bps[k];
  }

  lemma HoldsAdded(bps: seq<Bp>, m: map<nat, Known>, i: nat, b: Bp)
    requires Holds(bps, m) && i < |bps| && !bps[i].used && b.used && b.addr !in UsedAddrs(bps)
    ensures Holds(bps[i := b], m[b.addr := KnownAs(b)])
  {
    var after := bps[i := b];
    assert after[i] == b;
    assert forall k :: 0 <= k < |bps| && k != i ==> after[k] == bps[k];
  }

  ghost predicate FlagsHold(stopFlags: seq<bool>, passFlags: seq<bool>, t: Trace) {
    && |stopFlags| == NSIG && |passFlags| == NSIG
    && (forall s :: 0 < s < NSIG ==> stopFlags[s] == StopFlag(t, s))
    && (forall s :: 0 < s < NSIG ==> passFlags[s] == PassFlag(t, s))
  }

  /** Every table and every sticky bit can be read off a lawful record. */
  ghost predicate Tied(w: World) {
    && TableOk(w.bps, w.pending, w.orig)
    && Lawful(w.log)
    && Orig(w.log) == w.orig
    && Holds(w.bps, KnownBps(w.log))
    && Pending(w.log) == w.pending
    && Watches(w.log) == w.watches
    && Dr6(w.log) == w.dr6
    && FlagsHold(w.stopFlags, w.passFlags, w.log)
  }

  /** The signal kept for the next resume is the one the record owes. */
  ghost predicate Owed(w: World) {
    w.lastSig == Undelivered(w.log) && (w.pending != 0 ==> w.lastSig == 0)
  }

  ghost predicate JustHit(t: Trace) {
    t.After? && t.last.Hit?
  }

  /** What holds between two stops. */
  ghost predicate Inv(w: World) {
    match w.phase
    case Gone => Lawful(w.log)
    case AtPrompt => Tied(w) && Owed(w) && AtRest(w.log)
    case Running => Tied(w) && w.pending == 0 && w.log.After? && (w.log.last.Step? || w.log.last.Cont?)
    case SteppingOff(thenRun) =>
      && Tied(w) && Owed(w) && w.pending != 0 && w.log.After? && w.log.last.Step?
      && (JustHit(w.log.before) ==> thenRun)
  }

  // ---- resuming and stopping ----

  lemma PlantedIs(w: World)
    requires Tied(w)
    ensures Overlay(w.orig, PlantedAddrs(w.bps)) == Overlay(w.orig, KnownBps(w.log).Keys - {w.pending})
    ensures w.pending == 0 ==> Overlay(w.orig, PlantedAddrs(w.bps)) == Overlay(w.orig, KnownBps(w.log).Keys)
  {
    forall a | a in w.orig
      ensures a in PlantedAddrs(w.bps) <==> a in KnownBps(w.log).Keys - {w.pending}
    {
    }
  }

  /** The target may be resumed at the prompt and after a stop that is not the user's. */
  ghost predicate MayCont(t: Trace) {
    AtRest(t) || (t.After? && t.last.Recv? && Answers(t.before, t.last.stop, Cont(0, map[])))
  }

  lemma {:induction false} UndeliveredIsNoTrap(t: Trace)
    ensures Undelivered(t) != SIGTRAP
  {
    if t.After? && !t.last.Recv? {
      UndeliveredIsNoTrap(t.before);
    }
  }

  lemma ResumedKeeps(w: World)
    requires Tied(w) && Owed(w) && w.pending == 0 && MayCont(w.log)
    ensures Inv(Resumed(w))
  {
    PlantedIs(w);
    UndeliveredIsNoTrap(w.log);
    var e := Resumed(w).log.last;
    assert e.deliver == Deliverable(w.log);
    assert Allowed(w.log, e);
  }

  lemma SteppedKeeps(w: World, phase: Phase)
    requires Tied(w) && Owed(w) && (AtRest(w.log) || (JustHit(w.log) && !w.log.last.stopped))
    requires phase == if w.pending == 0 then Running else SteppingOff(phase.SteppingOff? && phase.thenRun)
    requires JustHit(w.log) ==> phase == SteppingOff(true)
    ensures Inv(Stepped(w, phase))
  {
    PlantedIs(w);
    assert Allowed(w.log, Stepped(w, phase).log.last);
  }

  lemma ShownKeeps(w: World)
    requires Tied(w) && Owed(w) && Allowed(w.log, Prompt)
    ensures Inv(Shown(w))
  {
  }

  // ---- one stop ----

  predicate AboutBps(e: Entry) {
    e.Insert? || e.Free? || e.SetIgnore? || e.ResetHits? || e.SetCond? || e.Hit?
  }

  /** An entry about a breakpoint changes nothing else that the record says. */
  lemma EntryKeeps(w: World, e: Entry)
    requires Tied(w) && Allowed(w.log, e) && AboutBps(e)
    ensures
      var t := After(w.log, e);
      && Lawful(t) && Orig(t) == w.orig && Watches(t) == w.watches && Dr6(t) == w.dr6
      && Undelivered(t) == Undelivered(w.log) && FlagsHold(w.stopFlags, w.passFlags, t)
  {
  }

  lemma HitCountedKeeps(w: World, i: nat)
    requires Tied(w) && w.pending == 0 && i < |w.bps| && w.bps[i].used && !w.bps[i].temporary
    requires Allowed(w.log, Hit(w.bps[i].addr, CondTrue(w.bps[i].cond, w.regs), HitStops(w, w.bps[i])))
    ensures Tied(HitCounted(w, i)) && HitCounted(w, i).pending != 0
  {
    var u := HitCounted(w, i);
    var mem := Overlay(w.orig, PlantedAddrs(w.bps));
    Lift(w.bps, mem, w.orig, i, u.bps[i]);
    HoldsChanged(w.bps, 0, w.orig, KnownBps(w.log), i, u.bps[i]);
    EntryKeeps(w, u.log.last);
  }

  lemma FreedKeeps(w: World, i: nat)
    requires Tied(w) && w.pending == 0 && i < |w.bps| && w.bps[i].used
    requires Allowed(w.log, Free(w.bps[i].addr))
    ensures Tied(Freed(w, i))
  {
    var mem := Overlay(w.orig, PlantedAddrs(w.bps));
    var u := Freed(w, i);
    Remove(w.bps, 0, mem, w.orig, i, u.bps[i]);
    HoldsFreed(w.bps, 0, w.orig, KnownBps(w.log), i, u.bps[i]);
    EntryKeeps(w, u.log.last);
  }

  /** `w` has just taken this stop in. */
  ghost predicate Took(w: World, stop: Stop) {
    && Tied(w) && w.log.After? && w.log.last == Recv(stop)
    && (stop.Stopped? ==> w.regs == stop.regs)
  }

  lemma TrapShownKeeps(w: World, stop: Stop)
    requires Took(w, stop) && IsTrap(stop) && w.pending == 0 && Pending(w.log.before) == 0
    requires TrapAnswer(w.log.before, stop) == Prompt
    ensures Inv(TrapShown(w))
  {
    ShownKeeps(w.(lastSig := 0));
  }

  /** A trap that no watchpoint and no single step explains. */
  ghost predicate Unexplained(w: World, stop: Stop) {
    && Took(w, stop) && IsTrap(stop) && !stop.traceTrap && w.pending == 0 && Pending(w.log.before) == 0
    && !WatchHit(w.watches, Dr6(w.log.before) + stop.debugHits)
  }

  lemma AnswerAt(w: World, stop: Stop)
    requires Unexplained(w, stop)
    ensures
      var here := Rewound(w.regs);
      var i := FindBp(w.bps, here.rip);
      TrapAnswer(w.log.before, stop) ==
        if i == |w.bps| then Prompt
        else if w.bps[i].temporary then Free(w.bps[i].addr)
        else Hit(w.bps[i].addr, CondTrue(w.bps[i].cond, here), HitStops(w.(regs := here), w.bps[i]))
    ensures var i := FindBp(w.bps, Rewound(w.regs).rip); i < |w.bps| ==> w.bps[i].inserted
  {
    NotUsed(w.bps, Rewound(w.regs).rip);
  }

  lemma HitKeeps(w: World, i: nat)
    requires Tied(w) && w.pending == 0 && i < |w.bps| && w.bps[i].used && !w.bps[i].temporary && Undelivered(w.log) == 0
    requires Allowed(w.log, Hit(w.bps[i].addr, CondTrue(w.bps[i].cond, w.regs), HitStops(w, w.bps[i])))
    ensures Inv(if HitStops(w, w.bps[i]) then TrapShown(HitCounted(w, i)) else AutoContinued(HitCounted(w, i)))
  {
    HitCountedKeeps(w, i);
    var hit := HitCounted(w, i).(lastSig := 0);
    if HitStops(w, w.bps[i]) {
      ShownKeeps(hit);
    } else {
      SteppedKeeps(RfSet(hit), SteppingOff(true));
    }
  }

  lemma Int3Keeps(w: World, stop: Stop)
    requires Unexplained(w, stop)
    ensures Inv(Int3(w))
  {
    var back := w.(regs := Rewound(w.regs));
    AnswerAt(w, stop);
    var i := FindBp(w.bps, back.regs.rip);
    if i == |w.bps| {
      ShownKeeps(back.(lastSig := 0));
    } else if w.bps[i].temporary {
      FreedKeeps(back, i);
      ShownKeeps(Freed(back, i).(lastSig := 0));
    } else {
      HitKeeps(back, i);
    }
  }

  lemma TrappedKeeps(w: World, stop: Stop)
    requires w.stops != [] && w.stops[0] == stop && IsTrap(stop) && Inv(w) && w.phase == Running
    ensures Inv(Trapped(Arrive(w).(lastSig := stop.sig), stop.traceTrap))
  {
    var told := Arrive(w).(lastSig := stop.sig);
    var clear := Dr6Read(told);
    assert Took(clear, stop);
    if WatchHit(w.watches, told.dr6) || stop.traceTrap {
      TrapShownKeeps(clear, stop);
    } else {
      Int3Keeps(clear, stop);
    }
  }

  lemma HandledKeeps(w: World)
    requires w.stops != [] && Inv(w) && w.phase == Running
    ensures Inv(Handled(Arrive(w), w.stops[0]))
  {
    var stop := w.stops[0];
    if IsTrap(stop) {
      TrappedKeeps(w, stop);
    } else if !Ended(stop) {
      var told := Arrive(w).(lastSig := if stop.Forked? then 0 else stop.sig);
      assert Took(told, stop);
      if stop.Stopped? && (stop.sig < 1 || stop.sig >= NSIG || Flag(w.stopFlags, stop.sig)) {
        ShownKeeps(told);
      } else {
        ResumedKeeps(told);
      }
    }
  }

  lemma LandedKeeps(w: World)
    requires w.stops != [] && !Ended(w.stops[0]) && Inv(w) && w.phase.SteppingOff?
    ensures Tied(Landed(Arrive(w))) && Owed(Landed(Arrive(w)))
  {
    var u := Arrive(w);
    var mem := Overlay(w.orig, PlantedAddrs(w.bps));
    NotUsed(w.bps, w.pending);
    var i := FindBp(w.bps, w.pending);
    Replant(w.bps, w.pending, mem, w.orig, i);
    HoldsChanged(w.bps, w.pending, w.orig, KnownBps(w.log), i, w.bps[i].(inserted := true));
    assert KnownBps(w.log)[w.pending := KnownAs(w.bps[i])] == KnownBps(w.log);
  }

  lemma SteppedOffKeeps(w: World)
    requires w.stops != [] && Inv(w) && w.phase.SteppingOff?
    ensures Inv(SteppedOff(Arrive(w), w.stops[0]))
  {
    var stop := w.stops[0];
    if !Ended(stop) {
      LandedKeeps(w);
      if w.phase.thenRun {
        ResumedKeeps(Landed(Arrive(w)));
      } else {
        ShownKeeps(Landed(Arrive(w)));
      }
    }
  }

  lemma ReactKeeps(w: World)
    requires w.stops != [] && InFlight(w.phase) && Inv(w)
    ensures Inv(React(w))
  {
    if w.phase.SteppingOff? {
      SteppedOffKeeps(w);
    } else {
      HandledKeeps(w);
    }
  }

  /** What every answer to a stop keeps, a run keeps. */
  lemma {:induction false} RunPreserves(w: World, P: World -> bool)
    requires P(w)
    requires forall v :: P(v) && InFlight(v.phase) && v.stops != [] ==> P(React(v))
    ensures P(Run(w))
    decreases |w.stops|
  {
    if InFlight(w.phase) && w.stops != [] {
      RunPreserves(React(w), P);
    }
  }

  /** However the stops go, the record stays lawful. */
  lemma RunKeeps(w: World)
    requires Inv(w)
    ensures Inv(Run(w))
  {
    forall v: World | Inv(v) && InFlight(v.phase) && v.stops != [] ensures Inv(React(v)) {
      ReactKeeps(v);
    }
    RunPreserves(w, v => Inv(v));
  }

  /** Only a target that never stops again keeps the debugger waiting. */
  lemma {:induction false} RunWaitsOnlyAtTheEnd(w: World)
    ensures InFlight(Run(w).phase) ==> Run(w).stops == []
    decreases |w.stops|
  {
    if InFlight(w.phase) && w.stops != [] {
      RunWaitsOnlyAtTheEnd(React(w));
    }
  }

  // ---- the commands ----

  /** What holds at the prompt. */
  ghost predicate AtEase(w: World) {
    w.phase == AtPrompt && Inv(w)
  }

  lemma BpSetKeeps(w: World, addr: nat, temporary: bool)
    requires AtEase(w)
    ensures AtEase(BpSet(w, addr, temporary))
  {
    if Settable(w, addr) {
      var i := FreeBp(w.bps);
      var u := BpSet(w, addr, temporary);
      NotUsed(w.bps, addr);
      Plant(w.bps, w.pending, Overlay(w.orig, PlantedAddrs(w.bps)), w.orig, i, u.bps[i]);
      HoldsAdded(w.bps, KnownBps(w.log), i, u.bps[i]);
      EntryKeeps(w, u.log.last);
    }
  }

  lemma BpDeletedKeeps(w: World, addr: nat)
    requires AtEase(w)
    ensures AtEase(BpDeleted(w, addr))
  {
    var i := FindBp(w.bps, addr);
    if i < |w.bps| {
      var u := BpDeleted(w, addr);
      Remove(w.bps, w.pending, Overlay(w.orig, PlantedAddrs(w.bps)), w.orig, i, u.bps[i]);
      HoldsFreed(w.bps, w.pending, w.orig, KnownBps(w.log), i, u.bps[i]);
      EntryKeeps(w, u.log.last);
    }
  }

  /** Changing the counters or the condition of a slot, with the entry that says so. */
  lemma ChangedKeeps(w: World, i: nat, b: Bp, e: Entry)
    requires AtEase(w) && i < |w.bps| && w.bps[i].used
    requires b == w.bps[i].(ignoreCount := b.ignoreCount, hitCount := b.hitCount, cond := b.cond)
    requires e.SetIgnore? || e.ResetHits? || e.SetCond?
    requires e.addr == b.addr
    requires
      var m := KnownBps(w.log);
      Noted(m, e) == m[b.addr := KnownAs(b)]
    ensures AtEase(w.(bps := w.bps[i := b], log := After(w.log, e)))
  {
    Recount(w.bps, w.pending, Overlay(w.orig, PlantedAddrs(w.bps)), w.orig, i, b);
    HoldsChanged(w.bps, w.pending, w.orig, KnownBps(w.log), i, b);
    EntryKeeps(w, e);
  }

  lemma SlotEditedKeeps(w: World, c: Command)
    requires AtEase(w) && (c.Ignore? || c.Reset? || c.Condition?)
    ensures AtEase(BpEdited(w, c))
  {
    var i := FindBp(w.bps, c.addr);
    if i < |w.bps| {
      var b := w.bps[i];
      match c {
        case Ignore(addr, n) => ChangedKeeps(w, i, b.(ignoreCount := ToInt(n)), SetIgnore(addr, ToInt(n)));
        case Reset(addr) => ChangedKeeps(w, i, b.(hitCount := 0), ResetHits(addr));
        case Condition(addr, cond) =>
          ChangedKeeps(w, i, b.(cond := StoredCond(cond)), SetCond(addr, StoredCond(cond)));
      }
    }
  }

  lemma BpEditedKeeps(w: World, c: Command)
    requires AtEase(w) && !Runs(c) && !OnWatches(c) && !c.SetFlags? && !c.SetReg?
    ensures AtEase(BpEdited(w, c))
  {
    if c.Break? {
      BpSetKeeps(w, c.addr, false);
    } else if c.Delete? {
      BpDeletedKeeps(w, c.addr);
    } else {
      SlotEditedKeeps(w, c);
    }
  }

  lemma WatchesNowKeeps(w: World, ws: seq<Watch>, exec: int)
    requires AtEase(w)
    ensures AtEase(WatchesNow(w.(hwExec := exec), ws)) && AtEase(w.(hwExec := exec))
  {
  }

  lemma WatchEditedKeeps(w: World, c: Command)
    requires AtEase(w) && OnWatches(c)
    ensures AtEase(WatchEdited(w, c))
  {
    var v := WatchEdited(w, c);
    WatchesNowKeeps(w, v.watches, v.hwExec);
  }

  lemma FlagsSetKeeps(w: World, sig: nat, toStop: Option<bool>, toPass: Option<bool>)
    requires AtEase(w)
    ensures AtEase(FlagsSet(w, sig, toStop, toPass))
  {
  }

  lemma EditedKeeps(w: World, c: Command)
    requires AtEase(w) && !Runs(c)
    ensures AtEase(Edited(w, c))
  {
    if c.SetFlags? {
      FlagsSetKeeps(w, c.sig, c.toStop, c.toPass);
    } else if OnWatches(c) {
      WatchEditedKeeps(w, c);
    } else if !c.SetReg? {
      BpEditedKeeps(w, c);
    }
  }

  lemma RfSetKeeps(w: World)
    requires AtEase(w)
    ensures AtEase(RfSet(w))
  {
  }

  lemma PastCallKeeps(w: World, callLen: nat)
    requires AtEase(w)
    ensures Inv(PastCall(w, callLen))
  {
    var behind := Behind(w, callLen);
    if w.pending != 0 {
      SteppedKeeps(w, SteppingOff(false));
      RunKeeps(Stepped(w, SteppingOff(false)));
    } else if callLen == 0 || !Settable(w, behind) {
      SteppedKeeps(w, Running);
      RunKeeps(Stepped(w, Running));
    } else {
      BpSetKeeps(w, behind, true);
      ResumedKeeps(BpSet(w, behind, true));
      RunKeeps(Resumed(BpSet(w, behind, true)));
    }
  }

  lemma ContinuedKeeps(w: World)
    requires AtEase(w)
    ensures Inv(Continued(w)) && InFlight(Continued(w).phase)
  {
    RfSetKeeps(w);
    if w.pending != 0 {
      SteppedKeeps(RfSet(w), SteppingOff(true));
    } else {
      ResumedKeeps(RfSet(w));
    }
  }

  lemma SteppedIntoKeeps(w: World)
    requires AtEase(w)
    ensures Inv(SteppedInto(w)) && InFlight(SteppedInto(w).phase)
  {
    RfSetKeeps(w);
    SteppedKeeps(RfSet(w), if w.pending != 0 then SteppingOff(false) else Running);
  }

  lemma RunContinuedKeeps(w: World)
    requires AtEase(w)
    ensures Inv(Run(Continued(w)))
  {
    ContinuedKeeps(w);
    RunKeeps(Continued(w));
  }

  lemma RunSteppedIntoKeeps(w: World)
    requires AtEase(w)
    ensures Inv(Run(SteppedInto(w)))
  {
    SteppedIntoKeeps(w);
    RunKeeps(SteppedInto(w));
  }

  lemma StepOverKeeps(w: World, readable: bool, callLen: nat)
    requires AtEase(w)
    ensures Inv(Do(w, StepOver(readable, callLen)))
  {
    RfSetKeeps(w);
    PastCallKeeps(RfSet(w), callLen);
  }

  lemma DoKeeps(w: World, c: Command)
    requires AtEase(w)
    ensures Inv(Do(w, c))
  {
    match c {
      case Continue => RunContinuedKeeps(w);
      case StepInto => RunSteppedIntoKeeps(w);
      case StepOver(readable, callLen) => StepOverKeeps(w, readable, callLen);
      case _ => EditedKeeps(w, c);
    }
  }

  lemma {:induction false} DoAllKeeps(w: World, cmds: seq<Command>)
    requires Inv(w)
    ensures Inv(DoAll(w, cmds))
    decreases |cmds|
  {
    if cmds != [] && w.phase == AtPrompt {
      DoKeeps(w, cmds[0]);
      DoAllKeeps(Do(w, cmds[0]), cmds[1..]);
    }
  }

  lemma {:induction false} DoAllWaitsOnlyAtTheEnd(w: World, cmds: seq<Command>)
    requires InFlight(w.phase) ==> w.stops == []
    ensures InFlight(DoAll(w, cmds).phase) ==> DoAll(w, cmds).stops == []
    decreases |cmds|
  {
    if cmds != [] && w.phase == AtPrompt {
      DoWaitsOnlyAtTheEnd(w, cmds[0]);
      DoAllWaitsOnlyAtTheEnd(Do(w, cmds[0]), cmds[1..]);
    }
  }

  lemma DoWaitsOnlyAtTheEnd(w: World, c: Command)
    requires w.phase == AtPrompt
    ensures InFlight(Do(w, c).phase) ==> Do(w, c).stops == []
  {
    match c {
      case Continue => RunWaitsOnlyAtTheEnd(Continued(w));
      case StepInto => RunWaitsOnlyAtTheEnd(SteppedInto(w));
      case StepOver(_, callLen) =>
        var ready := RfSet(w);
        RunWaitsOnlyAtTheEnd(Stepped(ready, SteppingOff(false)));
        RunWaitsOnlyAtTheEnd(Stepped(ready, Running));
        RunWaitsOnlyAtTheEnd(Resumed(BpSet(ready, Behind(ready, callLen), true)));
      case _ =>
    }
  }

  /** Every session's record is lawful, whatever is typed and whatever the target does. */
  lemma SessionsAreLawful(orig: Memory, regs: Regs, stops: seq<Stop>, cmds: seq<Command>)
    requires 0 !in orig
    ensures Inv(DoAll(Fresh(orig, regs, stops), cmds))
    ensures Lawful(DoAll(Fresh(orig, regs, stops), cmds).log)
    ensures
      var w := DoAll(Fresh(orig, regs, stops), cmds);
      InFlight(w.phase) ==> w.stops == []
  {
    var w := Fresh(orig, regs, stops);
    assert UsedAddrs(w.bps) == {};
    DoAllKeeps(w, cmds);
    DoAllWaitsOnlyAtTheEnd(w, cmds);
  }
}
