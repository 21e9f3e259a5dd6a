/** What each command does, in terms of the tables, the process and the record alone. */
module CommandLaws {
  import opened Common
  import opened Breakpoints
  import opened DebugRegisters
  import opened Machine
  import opened MachineLaws
  import opened Registers
  import opened StreamLaws
  import opened Trace
  import opened Words

  // ---- the table commands ----

  /** `db <addr>`: one slot that was free holds the breakpoint. */
  lemma {:induction false} BreakSets(w: World, addr: nat)
    requires addr !in UsedAddrs(w.bps) && HasFree(w.bps) && Mapped(w.orig, addr)
    ensures
      var v := Do(w, Break(addr));
      && addr in w.orig && BpAdded(w.bps, v.bps, addr, false, w.orig)
      && v == w.(bps := v.bps, log := After(w.log, Insert(addr, false)))
  {
    NotUsed(w.bps, addr);
    assert addr <= addr < addr + WORD_BYTES;
    var i := FreeBp(w.bps);
    assert !w.bps[i].used;
  }

  /** One slot changes like this, and the record says so. */
  predicate SlotChanges(w: World, v: World, i: nat, b: Bp, e: Entry)
    requires i < |w.bps|
  {
    v == w.(bps := w.bps[i := b], log := After(w.log, e))
  }

  lemma {:induction false} OnlySlot(w: World, i: nat)
    requires TableOk(w.bps, w.pending, w.orig) && i < |w.bps| && w.bps[i].used
    ensures FindBp(w.bps, w.bps[i].addr) == i
  {
  }

  /** `db- <addr>`: the breakpoint's slot is free, and it is not pending any more. */
  lemma {:induction false} DeleteFrees(w: World, i: nat)
    requires TableOk(w.bps, w.pending, w.orig) && i < |w.bps| && w.bps[i].used
    ensures
      var a := w.bps[i].addr;
      SlotChanges(w.(pending := if w.pending == a then 0 else w.pending), Do(w, Delete(a)), i,
                  w.bps[i].(used := false, inserted := false), Free(a))
  {
    OnlySlot(w, i);
  }

  /** `db <addr> ignore`, `db <addr> reset` and `cond` change the slot of that breakpoint. */
  lemma {:induction false} SlotCommands(w: World, i: nat, n: nat, c: Cond)
    requires TableOk(w.bps, w.pending, w.orig) && i < |w.bps| && w.bps[i].used
    ensures SlotChanges(w, Do(w, Reset(w.bps[i].addr)), i, w.bps[i].(hitCount := 0), ResetHits(w.bps[i].addr))
    ensures n < 0x8000_0000 ==>
      SlotChanges(w, Do(w, Ignore(w.bps[i].addr, n)), i, w.bps[i].(ignoreCount := n), SetIgnore(w.bps[i].addr, n))
    ensures (c.Cond? ==> c.reg in REG_NAMES) ==>
      SlotChanges(w, Do(w, Condition(w.bps[i].addr, c)), i, w.bps[i].(cond := StoredCond(c)),
                  SetCond(w.bps[i].addr, StoredCond(c)))
  {
    OnlySlot(w, i);
  }

  /** `handle` and `dr` change the flags of that signal and the registers. */
  lemma {:induction false} FlagAndRegisterCommands(w: World, sig: nat, stop: bool, pass: bool, r: Regs)
    requires 0 < sig < |w.stopFlags| == |w.passFlags|
    ensures
      && Do(w, SetFlags(sig, Some(stop), None)) ==
           w.(stopFlags := w.stopFlags[sig := stop], log := After(w.log, Handle(sig, Some(stop), None)))
      && Do(w, SetFlags(sig, None, Some(pass))) ==
           w.(passFlags := w.passFlags[sig := pass], log := After(w.log, Handle(sig, None, Some(pass))))
      && Do(w, SetReg(r)) == w.(regs := r)
  {
  }

  /** `watch`: the watchpoint is in a slot that was free. */
  lemma {:induction false} WatchAdds(w: World, added: Watch)
    requires added.enabled && ValidWatch(added) && added !in w.watches
    requires exists i :: 0 <= i < |w.watches| && !w.watches[i].enabled
    ensures
      var v := Do(w, WatchAt(added.addr, added.len, added.rw));
      WatchAdded(w.watches, v.watches, added) && v == w.(watches := v.watches, log := After(w.log, Watching(v.watches)))
  {
    var i := FreeWatch(w.watches);
    assert !w.watches[i].enabled;
  }

  /** `watch- <slot>`: that slot is off, and not waiting for the resume flag any more. */
  lemma {:induction false} UnwatchSlot(w: World, i: nat)
    requires i < |w.watches| && w.watches[i].enabled
    ensures
      var off := w.watches[i := w.watches[i].(enabled := false)];
      Do(w, Unwatch(i)) ==
        w.(watches := off, hwExec := if w.hwExec == i then -1 else w.hwExec, log := After(w.log, Watching(off)))
  {
  }

  /** `watch- <addr>` and `watch- all`. */
  lemma {:induction false} UnwatchMore(w: World, i: nat)
    requires i < |w.watches| && w.watches[i].enabled
    ensures WatchDropped(w.watches, Do(w, UnwatchAddr(w.watches[i].addr)).watches, w.watches[i].addr)
    ensures
      var v := Do(w, UnwatchAll);
      && |v.watches| == |w.watches| && v.hwExec == -1
      && forall k :: 0 <= k < |w.watches| ==> v.watches[k] == w.watches[k].(enabled := false)
  {
    var k := FindWatch(w.watches, w.watches[i].addr);
    assert k <= i;
  }

  // ---- the run commands ----

  lemma {:induction false} ExtendsOnce(t: Trace, e: Entry)
    ensures Extends(t, t) && Extends(t, After(t, e))
  {
  }

  lemma {:induction false} ExtendsFurther(t: Trace, u: Trace, v: Trace)
    requires Extends(t, u) && Extends(u, v)
    ensures Extends(t, v)
  {
    if v != u {
      ExtendsFurther(t, u, v.before);
    }
  }

  /** `u` is `t` and at most `n` entries more. */
  predicate FewMore(t: Trace, u: Trace, n: nat) {
    u == t || (n > 0 && u.After? && FewMore(t, u.before, n - 1))
  }

  lemma {:induction false} FewMoreExtends(t: Trace, u: Trace, n: nat)
    requires FewMore(t, u, n)
    ensures Extends(t, u)
  {
    if u != t {
      FewMoreExtends(t, u.before, n - 1);
    }
  }

  lemma {:induction false} Int3Grows(w: World)
    ensures FewMore(w.log, Int3(w).log, 2)
  {
    var v := Int3(w);
    assert FewMore(w.log, v.log.before, 0) || FewMore(w.log, v.log.before.before, 0);
  }

  lemma {:induction false} HandledGrows(w: World, stop: Stop)
    ensures FewMore(w.log, Handled(w, stop).log, 2)
  {
    if IsTrap(stop) {
      var read := Dr6Read(w.(lastSig := stop.sig));
      Int3Grows(read);
      assert FewMore(w.log, TrapShown(read).log.before, 0);
    } else {
      var v := Handled(w, stop);
      assert FewMore(w.log, v.log, 0) || FewMore(w.log, v.log.before, 0);
    }
  }

  lemma {:induction false} ReactExtends(w: World)
    requires w.stops != []
    ensures Extends(w.log, React(w).log)
  {
    var u := Arrive(w);
    ExtendsOnce(w.log, Recv(w.stops[0]));
    if w.phase.SteppingOff? {
      var v := SteppedOff(u, w.stops[0]);
      assert v.log == u.log || v.log.before == u.log;
      assert FewMore(u.log, v.log, 1);
      FewMoreExtends(u.log, v.log, 1);
    } else {
      HandledGrows(u, w.stops[0]);
      FewMoreExtends(u.log, Handled(u, w.stops[0]).log, 2);
    }
    ExtendsFurther(w.log, u.log, React(w).log);
  }

  /** What a run command writes first stays in the record. */
  lemma {:induction false} RunExtends(w: World, t: Trace)
    requires Extends(t, w.log)
    ensures Extends(t, Run(w).log)
  {
    forall v: World | Extends(t, v.log) && InFlight(v.phase) && v.stops != [] ensures Extends(t, React(v).log) {
      ReactExtends(v);
      ExtendsFurther(t, v.log, React(v).log);
    }
    RunPreserves(w, (v: World) => Extends(t, v.log));
  }

  /** The signal a resume owes: that of the last stop, if its pass flag is on. */
  function OwedSignal(w: World): nat {
    if 0 < w.lastSig < |w.passFlags| && w.passFlags[w.lastSig] then w.lastSig else 0
  }

  function MemoryNow(w: World): Memory {
    Overlay(w.orig, PlantedAddrs(w.bps))
  }

  /** `dc` resumes with the owed signal, or first steps off a lifted breakpoint. */
  lemma {:induction false} ContinueResumes(w: World)
    ensures
      var first := if w.pending == 0 then Cont(OwedSignal(w), MemoryNow(w)) else Step(MemoryNow(w));
      Extends(After(w.log, first), Do(w, Continue).log)
  {
    RunExtends(Continued(w), Continued(w).log);
  }

  /** `ds` steps. */
  lemma {:induction false} StepSteps(w: World)
    ensures Extends(After(w.log, Step(MemoryNow(w))), Do(w, StepInto).log)
  {
    RunExtends(SteppedInto(w), SteppedInto(w).log);
  }

  /** A step that ends gives the prompt with the registers it ended with, and takes no further stop. */
  lemma {:induction false} StepIsShown(w: World, at: Regs, rest: seq<Stop>)
    requires w.pending == 0 && w.stops == [Stopped(SIGTRAP, true, {}, at)] + rest
    ensures
      var v := Do(w, StepInto);
      && v.phase == AtPrompt && v.stops == rest && v.regs == at && v.bps == w.bps && v.pending == 0
      && v.log == After(After(After(w.log, Step(MemoryNow(w))), Recv(w.stops[0])), Prompt)
  {
    var going := SteppedInto(w);
    RunUnfolds(going);
    RunUnfolds(React(going));
  }

  /** From a lifted breakpoint the step puts it back, and its stop is the end of it, whatever it is. */
  lemma {:induction false} StepOffIsShown(w: World, i: nat, rest: seq<Stop>)
    requires Set(w, i) && w.pending == w.bps[i].addr && w.stops != [] && !Ended(w.stops[0]) && rest == w.stops[1..]
    ensures
      var v := Do(w, StepInto);
      && v.phase == AtPrompt && v.stops == rest && v.pending == 0 && v.bps == w.bps[i := w.bps[i].(inserted := true)]
      && v.log == After(After(After(w.log, Step(MemoryNow(w))), Recv(w.stops[0])), Prompt)
  {
    FoundAt(w, i);
    NotUsed(w.bps, w.pending);
    var going := SteppedInto(w);
    RunUnfolds(going);
    RunUnfolds(React(going));
  }

  /** A pending execute watchpoint sets the resume flag for `dc`, `ds` and `dso`, once. */
  lemma {:induction false} ResumeFlagIsSet(w: World)
    requires w.hwExec >= 0 && w.stops == []
    ensures Do(w, Continue).regs.eflags / 0x1_0000 % 2 == 1 && Do(w, Continue).hwExec == -1
    ensures Do(w, StepInto).regs.eflags / 0x1_0000 % 2 == 1 && Do(w, StepInto).hwExec == -1
    ensures Do(w, StepOver(true, 0)).regs.eflags / 0x1_0000 % 2 == 1 && Do(w, StepOver(true, 0)).hwExec == -1
  {
    WithRfSetsBit16(w.regs.eflags);
    RunUnfolds(Continued(w));
    RunUnfolds(SteppedInto(w));
    RunUnfolds(Stepped(RfSet(w), SteppingOff(false)));
    RunUnfolds(Stepped(RfSet(w), Running));
  }

  /** The end of the target is recorded with its code or signal. */
  lemma {:induction false} EndIsRecorded(w: World)
    requires InFlight(w.phase) && w.stops != [] && Ended(w.stops[0])
    ensures
      var v, stop := Run(w), w.stops[0];
      && v.phase == Gone && v.stops == w.stops[1..]
      && v.exitedCode == (if stop.Exited? then stop.code else w.exitedCode)
      && v.signaledSig == (if stop.Killed? then stop.termSig else w.signaledSig)
  {
    RunUnfolds(w);
    RunUnfolds(React(w));
  }

  // ---- over a call ----

  /** The address behind a call of this length. */
  function ReturnTo(w: World, callLen: nat): nat {
    (w.regs.rip + callLen) % 0x1_0000_0000_0000_0000
  }

  /** A breakpoint can be set there. */
  ghost predicate Vacant(w: World, addr: nat) {
    addr !in UsedAddrs(w.bps) && HasFree(w.bps) && Mapped(w.orig, addr)
  }

  /** The first entries that `dso` adds to the record: a temporary breakpoint behind a call and a resume with the owed
      signal; where it cannot be set, from a lifted breakpoint and on any other instruction, a step. */
  ghost function FirstOfStepOver(w: World, callLen: nat): Trace {
    var a := ReturnTo(w, callLen);
    if w.pending == 0 && callLen > 0 && Vacant(w, a) then
      After(After(w.log, Insert(a, true)), Cont(OwedSignal(w), MemoryNow(w)[a := INT3]))
    else After(w.log, Step(MemoryNow(w)))
  }

  lemma {:induction false} StepOverResumes(w: World, callLen: nat) returns (v: World)
    ensures v == Do(w, StepOver(true, callLen)) && Extends(FirstOfStepOver(w, callLen), v.log)
  {
    StepOverIsPastCall(w, callLen);
    var ready := RfSet(w);
    v := PastCall(ready, callLen);
    SettableIsVacant(ready, ReturnTo(w, callLen));
    if w.pending == 0 && callLen > 0 && Vacant(ready, ReturnTo(w, callLen)) {
      PastCallIsCall(ready, callLen);
      var u := CallRuns(ready, ReturnTo(w, callLen));
    } else {
      var going := Stepped(ready, if w.pending != 0 then SteppingOff(false) else Running);
      RunExtends(going, going.log);
    }
  }

  lemma {:induction false} CallRuns(w: World, a: nat) returns (v: World)
    requires w.pending == 0 && Vacant(w, a)
    ensures v == Cleared(Run(Resumed(BpSet(w, a, true))), a)
    ensures Extends(After(After(w.log, Insert(a, true)), Cont(OwedSignal(w), MemoryNow(w)[a := INT3])), v.log)
  {
    var going := CallResumed(w, a);
    RunExtends(going, going.log);
    v := Cleared(Run(going), a);
  }

  lemma {:induction false} CallResumed(w: World, a: nat) returns (going: World)
    requires w.pending == 0 && Vacant(w, a)
    ensures going == Resumed(BpSet(w, a, true))
    ensures going.log == After(After(w.log, Insert(a, true)), Cont(OwedSignal(w), MemoryNow(w)[a := INT3]))
  {
    SettableIsVacant(w, a);
    var i := FreeBp(w.bps);
    var armed := BpSet(w, a, true);
    OneMorePlanted(w.bps, i, armed.bps[i]);
    assert Overlay(w.orig, PlantedAddrs(armed.bps)) == MemoryNow(w)[a := INT3];
    going := Resumed(armed);
  }

  /** `dso` on a call is the run to the temporary breakpoint. */
  lemma {:induction false} PastCallIsCall(w: World, callLen: nat)
    requires w.pending == 0 && callLen > 0 && Vacant(w, ReturnTo(w, callLen))
    ensures PastCall(w, callLen) == Cleared(Run(Resumed(BpSet(w, ReturnTo(w, callLen), true))), ReturnTo(w, callLen))
  {
    SettableIsVacant(w, ReturnTo(w, callLen));
  }

  lemma {:induction false} StepOverIsPastCall(w: World, callLen: nat)
    ensures Do(w, StepOver(true, callLen)) == PastCall(RfSet(w), callLen)
  {
  }

  lemma {:induction false} OneMorePlanted(bps: seq<Bp>, i: nat, b: Bp)
    requires i < |bps| && !bps[i].used && b.used && b.inserted
    ensures PlantedAddrs(bps[i := b]) == PlantedAddrs(bps) + {b.addr}
  {
    var after := bps[i := b];
    assert after[i] == b;
    assert forall k :: 0 <= k < |bps| && k != i ==> after[k] == bps[k];
  }

  lemma {:induction false} SettableIsVacant(w: World, addr: nat)
    ensures Settable(w, addr) <==> Vacant(w, addr)
  {
    NotUsed(w.bps, addr);
    var i := FreeBp(w.bps);
    assert i < |w.bps| ==> !w.bps[i].used;
    assert Mapped(w.orig, addr) ==> addr in w.orig by {
      assert addr <= addr < addr + WORD_BYTES;
    }
  }

  /** Code that cannot be read is left alone. */
  lemma {:induction false} StepOverNeedsCode(w: World, callLen: nat)
    ensures
      var v := Do(w, StepOver(false, callLen));
      v.log == w.log && v.phase == w.phase && v.bps == w.bps && v.stops == w.stops && v.regs.rip == w.regs.rip
  {
  }

  /** With a temporary breakpoint in slot `i`, the run that reaches it. */
  lemma {:induction false} TemporaryFires(w: World, i: nat, trap: Stop, rest: seq<Stop>)
    requires TableOk(w.bps, 0, w.orig) && w.pending == 0 && w.phase == Running && !WatchHit(w.watches, w.dr6)
    requires i < |w.bps| && w.bps[i].used && w.bps[i].temporary
    requires w.stops == [trap] + rest && TrapAt(w, trap, w.bps[i].addr)
    ensures
      var v := Run(w);
      && v.phase == AtPrompt && v.stops == rest && v.regs.rip == w.bps[i].addr && v.pending == 0
      && v.bps == w.bps[i := w.bps[i].(used := false, inserted := false)]
  {
    CleanBits(w.watches, w.dr6, DebugHits(trap));
    OnlySlot(w, i);
    RunUnfolds(w);
    RunUnfolds(React(w));
  }

  lemma {:induction false} TemporaryGone(bps: seq<Bp>, i: nat, b: Bp, c: Bp)
    requires i < |bps| && !bps[i].used && !c.used
    ensures
      var after := bps[i := b][i := c];
      UsedAddrs(after) == UsedAddrs(bps) && forall k :: 0 <= k < |bps| && bps[k].used ==> after[k] == bps[k]
  {
    var after := bps[i := c];
    assert bps[i := b][i := c] == after;
    assert forall k :: 0 <= k < |bps| && k != i ==> after[k] == bps[k];
    assert !after[i].used;
  }

  lemma {:induction false} TemporarySet(w: World, a: nat) returns (i: nat, armed: World)
    requires TableOk(w.bps, 0, w.orig) && w.pending == 0 && Vacant(w, a)
    ensures a in w.orig && armed == BpSet(w, a, true) && i < |w.bps| && !w.bps[i].used
    ensures armed == w.(bps := w.bps[i := Bp(true, true, true, a, w.orig[a], 0, 0, NoCond)], log := armed.log)
    ensures TableOk(armed.bps, 0, w.orig)
  {
    SettableIsVacant(w, a);
    i := FreeBp(w.bps);
    armed := BpSet(w, a, true);
    Plant(w.bps, 0, MemoryNow(w), w.orig, i, armed.bps[i]);
  }

  /** Nothing is left of the temporary breakpoint, and nothing else changed. */
  ghost predicate SameBreakpoints(before: seq<Bp>, after: seq<Bp>) {
    && |after| == |before| && UsedAddrs(after) == UsedAddrs(before)
    && forall k :: 0 <= k < |before| && before[k].used ==> after[k] == before[k]
  }

  lemma {:induction false} CallLands(w: World, a: nat, trap: Stop, rest: seq<Stop>) returns (v: World)
    requires TableOk(w.bps, 0, w.orig) && w.pending == 0 && !WatchHit(w.watches, w.dr6) && Vacant(w, a)
    requires w.stops == [trap] + rest && TrapAt(w, trap, a)
    ensures v == Run(Resumed(BpSet(w, a, true)))
    ensures v.phase == AtPrompt && v.stops == rest && v.regs.rip == a && v.pending == 0 && SameBreakpoints(w.bps, v.bps)
  {
    var i, armed := TemporarySet(w, a);
    v := Run(Resumed(armed));
    TemporaryFires(Resumed(armed), i, trap, rest);
    TemporaryGone(w.bps, i, armed.bps[i], armed.bps[i].(used := false, inserted := false));
  }

  lemma {:induction false} PromptKeepsAll(v: World, a: nat)
    requires v.phase == AtPrompt
    ensures Cleared(v, a) == v
  {
  }

  /** `dso` on a call whose return is reached: the user has the prompt there, and every breakpoint is as it was. */
  lemma {:induction false} StepOverLands(w: World, callLen: nat, trap: Stop, rest: seq<Stop>) returns (v: World)
    requires TableOk(w.bps, 0, w.orig) && w.pending == 0 && !WatchHit(w.watches, w.dr6)
    requires callLen > 0 && Vacant(w, ReturnTo(w, callLen))
    requires w.stops == [trap] + rest && TrapAt(w, trap, ReturnTo(w, callLen))
    ensures v == Do(w, StepOver(true, callLen))
    ensures v.phase == AtPrompt && v.stops == rest && v.regs.rip == ReturnTo(w, callLen) && v.pending == 0
    ensures SameBreakpoints(w.bps, v.bps)
  {
    StepOverIsPastCall(w, callLen);
    PastCallIsCall(RfSet(w), callLen);
    v := CallLands(RfSet(w), ReturnTo(w, callLen), trap, rest);
    PromptKeepsAll(v, ReturnTo(w, callLen));
  }

  lemma {:induction false} CallDies(w: World, a: nat) returns (v: World)
    requires TableOk(w.bps, 0, w.orig) && w.pending == 0 && Vacant(w, a) && w.stops != [] && Ended(w.stops[0])
    ensures v == Cleared(Run(Resumed(BpSet(w, a, true))), a)
    ensures v.phase == Gone && SameBreakpoints(w.bps, v.bps)
  {
    var i, armed := TemporarySet(w, a);
    var going := Resumed(armed);
    EndIsRecorded(going);
    RunUnfolds(going);
    RunUnfolds(React(going));
    OnlySlot(armed, i);
    TemporaryGone(w.bps, i, armed.bps[i], armed.bps[i].(inserted := false, used := false));
    v := Cleared(Run(going), a);
  }

  /** If the target ends instead, the temporary breakpoint's slot is free again too. */
  lemma {:induction false} StepOverDies(w: World, callLen: nat) returns (v: World)
    requires TableOk(w.bps, 0, w.orig) && w.pending == 0
    requires callLen > 0 && Vacant(w, ReturnTo(w, callLen)) && w.stops != [] && Ended(w.stops[0])
    ensures v == Do(w, StepOver(true, callLen)) && v.phase == Gone && SameBreakpoints(w.bps, v.bps)
  {
    StepOverIsPastCall(w, callLen);
    PastCallIsCall(RfSet(w), callLen);
    v := CallDies(RfSet(w), ReturnTo(w, callLen));
  }

  // ---- a first session ----

  /** A new session, `db <a>`, `dc`: after passing signals the trap behind `a` stops with rip on `a`, the breakpoint hit
      once and its INT3 lifted, and no further stop taken. */
  lemma {:induction false} BreakThenContinue(orig: Memory, regs: Regs, a: nat, last: seq<Stop>, trap: Stop,
                                             rest: seq<Stop>) returns (v: World)
    requires 0 !in orig && Mapped(orig, a)
    requires AllPassing(Fresh(orig, regs, []), last) && TrapAt(Fresh(orig, regs, []), trap, a)
    ensures a in orig && v == DoAll(Fresh(orig, regs, last + ([trap] + rest)), [Break(a), Continue])
    ensures v.phase == AtPrompt && v.stops == rest && v.regs.rip == a
    ensures v.bps == NO_BPS[0 := Bp(true, false, false, a, orig[a], 1, 0, NoCond)]
  {
    var w := Fresh(orig, regs, last + ([trap] + rest));
    assert a <= a < a + WORD_BYTES;
    assert UsedAddrs(w.bps) == {};
    assert !w.bps[0].used;
    NotUsed(w.bps, a);
    var armed := Do(w, Break(a));
    CommandThenContinue(w, Break(a));
    Plant(w.bps, 0, MemoryNow(w), orig, 0, armed.bps[0]);
    var going := Continued(armed);
    assert AllPassing(going, last) && TrapAt(going, trap, a);
    v := StopsAtSeenTrap(going, 0, last, trap, rest);
  }
}
