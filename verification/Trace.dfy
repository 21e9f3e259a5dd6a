/** The record of a debugging session: what was asked of the process, what it reported, and what the user
    changed in between. Everything the debugger must do next can be read off the record. */
module Trace {
  import opened Common
  import opened DebugRegisters
  import opened Registers
  import opened Words

  const SIGTRAP := 5
  const NSIG := 65

  /** Signals that pass to the target without stopping, unless the user says otherwise. */
  const BENIGN: set<int> := {10, 12, 13, 14, 17, 23, 26, 27, 28, 29}

  /** What waitpid reports. `Forked` stands for the fork, vfork and clone event stops. */
  datatype Stop =
    | Exited(code: int)
    | Killed(termSig: nat)
    | Forked(forkRegs: Regs)
    | Stopped(sig: nat, traceTrap: bool, debugHits: set<nat>, regs: Regs)

  predicate Ended(stop: Stop) {
    stop.Exited? || stop.Killed?
  }

  predicate IsTrap(stop: Stop) {
    stop.Stopped? && stop.sig == SIGTRAP
  }

  function DebugHits(stop: Stop): set<nat> {
    if stop.Stopped? then stop.debugHits else {}
  }

  /** The registers after a report. */
  function RegsAfter(regs: Regs, stop: Stop): Regs {
    match stop
    case Forked(r) => r
    case Stopped(_, _, _, r) => r
    case _ => regs
  }

  datatype Entry =
    // the process
    | Recv(stop: Stop)                         // waitpid reported this
    | Step(mem: Memory)                        // PTRACE_SINGLESTEP, on this memory
    | Cont(deliver: nat, mem: Memory)          // PTRACE_CONT, on this memory
    // the tables
    | Insert(addr: nat, temporary: bool)
    | Free(addr: nat)                          // a breakpoint was deleted, or was temporary and fired
    | SetIgnore(addr: nat, n: int)
    | ResetHits(addr: nat)
    | SetCond(addr: nat, cond: Cond)
    | Handle(sig: nat, toStop: Option<bool>, toPass: Option<bool>)
    | Watching(watches: seq<Watch>)            // the watchpoint table became this
    // the debugger's decisions
    | Hit(addr: nat, holds: bool, stopped: bool)  // the user's breakpoint fired
    | Prompt                                   // the stop was handed to the user

  datatype Trace = Start(orig: Memory) | After(before: Trace, last: Entry)

  /** The record `u` goes on from `t`. */
  predicate Extends(t: Trace, u: Trace) {
    u == t || (u.After? && Extends(t, u.before))
  }

  // ---- what the record says about the tables ----

  function Orig(t: Trace): Memory {
    match t
    case Start(orig) => orig
    case After(before, _) => Orig(before)
  }

  /** A breakpoint that is set. */
  datatype Known = Known(temporary: bool, cond: Cond, ignore: int, hits: nat)

  function KnownBps(t: Trace): map<nat, Known> {
    match t
    case Start(_) => map[]
    case After(before, e) => Noted(KnownBps(before), e)
  }

  function Noted(m: map<nat, Known>, e: Entry): map<nat, Known> {
    match e
    case Insert(a, temporary) => m[a := Known(temporary, NoCond, 0, 0)]
    case Free(a) => m - {a}
    case SetIgnore(a, n) => if a in m then m[a := m[a].(ignore := n)] else m
    case ResetHits(a) => if a in m then m[a := m[a].(hits := 0)] else m
    case SetCond(a, c) => if a in m then m[a := m[a].(cond := c)] else m
    case Hit(a, c, _) =>
      if a in m then
        m[a := m[a].(hits := m[a].hits + 1, ignore := if c && m[a].ignore > 0 then m[a].ignore - 1 else m[a].ignore)]
      else m
    case _ => m
  }

  function StopFlag(t: Trace, s: nat): bool {
    match t
    case Start(_) => s !in BENIGN
    case After(before, e) =>
      if e.Handle? && e.sig == s && e.toStop.Some? then e.toStop.value else StopFlag(before, s)
  }

  function PassFlag(t: Trace, s: nat): bool {
    match t
    case Start(_) => true
    case After(before, e) =>
      if e.Handle? && e.sig == s && e.toPass.Some? then e.toPass.value else PassFlag(before, s)
  }

  function Watches(t: Trace): seq<Watch> {
    match t
    case Start(_) => NO_WATCHES
    case After(before, e) => if e.Watching? then e.watches else Watches(before)
  }

  // ---- what the record says about the process ----

  /** The breakpoint whose INT3 is out of memory because it was hit and not yet stepped off; else 0. */
  function Pending(t: Trace): nat {
    match t
    case Start(_) => 0
    case After(before, e) =>
      match e
      case Hit(a, _, _) => a
      case Recv(_) => 0
      case Free(a) => if Pending(before) == a then 0 else Pending(before)
      case _ => Pending(before)
  }

  predicate RealSignal(sig: nat) {
    0 < sig < NSIG && sig != SIGTRAP
  }

  /** The signal of the latest stop, as long as the target was not resumed since; else 0. The stop that ends a
      step off a breakpoint is dropped, and a trap is the debugger's own. */
  function Undelivered(t: Trace): nat {
    match t
    case Start(_) => 0
    case After(before, e) =>
      match e
      case Recv(stop) => if Pending(before) != 0 || !stop.Stopped? || stop.sig == SIGTRAP then 0 else stop.sig
      case Step(_) => 0
      case Cont(_, _) => 0
      case _ => Undelivered(before)
  }

  /** Watchpoint hit bits: sticky, also through a dropped stop, until a trap is handled. */
  function Dr6(t: Trace): set<nat> {
    match t
    case Start(_) => {}
    case After(before, e) =>
      if e.Recv? then
        var bits := Dr6(before) + DebugHits(e.stop);
        if IsTrap(e.stop) && Pending(before) == 0 && SomeSlot(bits) then {} else bits
      else Dr6(before)
  }

  predicate SomeSlot(bits: set<nat>) {
    exists i :: 0 <= i < HW_WP_SLOTS && i in bits
  }

  predicate WatchHit(ws: seq<Watch>, bits: set<nat>) {
    exists k :: 0 <= k < |ws| && k in bits && ws[k].enabled
  }

  predicate Edit(e: Entry) {
    e.Insert? || e.Free? || e.SetIgnore? || e.ResetHits? || e.SetCond? || e.Handle? || e.Watching?
  }

  /** The user has the prompt. */
  predicate AtRest(t: Trace) {
    t.After? ==> t.last.Prompt? || (Edit(t.last) && AtRest(t.before))
  }

  // ---- what must follow ----

  /** The answer to a trap: the hit of the breakpoint just behind rip, the end of a temporary one, or the prompt
      if a single step ended, a watchpoint fired, or no breakpoint is there. */
  function TrapAnswer(before: Trace, stop: Stop): Entry
    requires stop.Stopped?
  {
    var m, here := KnownBps(before), Rewound(stop.regs);
    if stop.traceTrap || WatchHit(Watches(before), Dr6(before) + stop.debugHits) || here.rip !in m then Prompt
    else if m[here.rip].temporary then Free(here.rip)
    else
      var c := CondTrue(m[here.rip].cond, here);
      Hit(here.rip, c, c && m[here.rip].ignore <= 0)
  }

  /** The signal a resume delivers: that of the last stop, if it is to be passed. */
  function Deliverable(t: Trace): nat {
    var s := Undelivered(t);
    if RealSignal(s) && PassFlag(t, s) then s else 0
  }

  /** May `e` answer the report that `before` ends with? */
  predicate Answers(before: Trace, stop: Stop, e: Entry) {
    if Ended(stop) then false
    else if Pending(before) != 0 then
      // the end of a step off a breakpoint: dropped, whatever it is
      e.Cont? || (e.Prompt? && !(before.After? && before.before.After? && before.before.last.Hit?))
    else if stop.Forked? then e.Cont?
    else if stop.sig == SIGTRAP then e == TrapAnswer(before, stop)
    else if RealSignal(stop.sig) && !StopFlag(before, stop.sig) then e.Cont?
    else e.Prompt?
  }

  predicate Allowed(before: Trace, e: Entry) {
    // whenever the target is let run, every breakpoint but the pending one is in place, and nothing else differs
    && (e.Cont? ==> Pending(before) == 0 && e.mem == Overlay(Orig(before), KnownBps(before).Keys))
    && (e.Step? ==> e.mem == Overlay(Orig(before), KnownBps(before).Keys - {Pending(before)}))
    && (e.Cont? ==> e.deliver == Deliverable(before))
    && if AtRest(before) then Edit(e) || e.Step? || e.Cont?
       else match before.last
         case Step(_) => e.Recv?
         case Cont(_, _) => e.Recv?
         case Recv(stop) => Answers(before.before, stop, e)
         case Hit(_, _, stopped) => if stopped then e.Prompt? else e.Step?
         case Free(_) => e.Prompt?
         case _ => false
  }

  predicate Lawful(t: Trace) {
    t.After? ==> Lawful(t.before) && Allowed(t.before, t.last)
  }
}
