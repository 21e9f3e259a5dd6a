/** The debugger as a machine that takes one stop at a time: what it does with the tables, the process and the
    record, whatever the shape of the code that does it. */
module Machine {
  import opened Common
  import opened Breakpoints
  import opened DebugRegisters
  import opened Registers
  import opened Trace
  import opened Words

  /** Where the debugger stands. `SteppingOff` is the single step off a lifted breakpoint, after which the target
      runs on or the user gets the prompt. */
  datatype Phase = AtPrompt | Gone | Running | SteppingOff(thenRun: bool)

  datatype World = World(
    bps: seq<Bp>, pending: nat,
    watches: seq<Watch>, hwExec: int,
    stopFlags: seq<bool>, passFlags: seq<bool>, lastSig: nat,
    exitedCode: int, signaledSig: nat,
    orig: Memory, regs: Regs, dr6: set<nat>, stops: seq<Stop>,
    log: Trace, phase: Phase)

  predicate InFlight(phase: Phase) {
    phase.Running? || phase.SteppingOff?
  }

  /** A signal's flag; numbers out of range have none. */
  predicate Flag(flags: seq<bool>, sig: nat) {
    0 < sig < |flags| && flags[sig]
  }

  // ---- resuming and stopping ----

  function Resumed(w: World): World {
    var deliver := if Flag(w.passFlags, w.lastSig) then w.lastSig else 0;
    w.(log := After(w.log, Cont(deliver, Overlay(w.orig, PlantedAddrs(w.bps)))), phase := Running)
  }

  function Stepped(w: World, phase: Phase): World {
    w.(log := After(w.log, Step(Overlay(w.orig, PlantedAddrs(w.bps)))), phase := phase)
  }

  function Shown(w: World): World {
    w.(log := After(w.log, Prompt), phase := AtPrompt)
  }

  /** The resume flag, if an execute watchpoint under rip would fire again at once. */
  function RfSet(w: World): World {
    if w.hwExec < 0 then w else w.(regs := w.regs.(eflags := WithRf(w.regs.eflags)), hwExec := -1)
  }

  // ---- one stop ----

  function Arrive(w: World): World
    requires w.stops != []
  {
    var stop := w.stops[0];
    w.(stops := w.stops[1..], regs := RegsAfter(w.regs, stop), dr6 := w.dr6 + DebugHits(stop),
       log := After(w.log, Recv(stop)))
  }

  /** The last enabled execute slot among the first `n` whose bit is set; -1 if there is none. */
  function LastExec(ws: seq<Watch>, bits: set<nat>, n: nat): (r: int)
    requires n <= |ws|
    ensures -1 <= r < n
    ensures r >= 0 ==> r in bits && ws[r].enabled && ws[r].rw == 0
    ensures forall k :: r < k < n && k in bits && ws[k].enabled ==> ws[k].rw != 0
  {
    if n == 0 then -1
    else if n - 1 in bits && ws[n - 1].enabled && ws[n - 1].rw == 0 then n - 1
    else LastExec(ws, bits, n - 1)
  }

  /** DR6 read and cleared. */
  function Dr6Read(w: World): World {
    if !SomeSlot(w.dr6) then w
    else
      var exec := LastExec(w.watches, w.dr6, |w.watches|);
      w.(dr6 := {}, hwExec := if exec >= 0 then exec else w.hwExec)
  }

  /** Slot `i` fired: its INT3 is lifted and the hit counted. */
  function HitCounted(w: World, i: nat): World
    requires i < |w.bps|
  {
    var b := w.bps[i];
    var holds := CondTrue(b.cond, w.regs);
    var counted := b.(inserted := false, hitCount := b.hitCount + 1,
                      ignoreCount := if holds && b.ignoreCount > 0 then b.ignoreCount - 1 else b.ignoreCount);
    w.(bps := w.bps[i := counted], pending := b.addr, log := After(w.log, Hit(b.addr, holds, HitStops(w, b))))
  }

  predicate HitStops(w: World, b: Bp) {
    CondTrue(b.cond, w.regs) && b.ignoreCount <= 0
  }

  /** The user gets the prompt after a trap. */
  function TrapShown(w: World): World {
    Shown(w.(lastSig := 0))
  }

  /** The user does not get to see the hit: the target is stepped off the breakpoint, and will run on. */
  function AutoContinued(w: World): World {
    Stepped(RfSet(w.(lastSig := 0)), SteppingOff(true))
  }

  /** Slot `i` is free. */
  function Freed(w: World, i: nat): World
    requires i < |w.bps|
  {
    w.(bps := w.bps[i := w.bps[i].(inserted := false, used := false)], log := After(w.log, Free(w.bps[i].addr)))
  }

  /** A trap that is no watchpoint's and no single step's: rip goes back by one. */
  function Int3(w: World): World {
    var back := w.(regs := Rewound(w.regs));
    var i := FindBp(back.bps, back.regs.rip);
    if i == |w.bps| || !w.bps[i].inserted then TrapShown(back)
    else if w.bps[i].temporary then TrapShown(Freed(back, i))
    else if HitStops(back, w.bps[i]) then TrapShown(HitCounted(back, i))
    else AutoContinued(HitCounted(back, i))
  }

  function Trapped(w: World, traceTrap: bool): World {
    if WatchHit(w.watches, w.dr6) || traceTrap then TrapShown(Dr6Read(w)) else Int3(Dr6Read(w))
  }

  function Over(w: World, stop: Stop): World
    requires Ended(stop)
  {
    match stop
    case Exited(code) => w.(exitedCode := code, phase := Gone)
    case Killed(sig) => w.(signaledSig := sig, phase := Gone)
  }

  /** The answer to a stop of the running target. */
  function Handled(w: World, stop: Stop): World {
    if Ended(stop) then Over(w, stop)
    else if stop.Forked? then Resumed(w.(lastSig := 0))
    else
      var told := w.(lastSig := stop.sig);
      if stop.sig == SIGTRAP then Trapped(told, stop.traceTrap)
      else if stop.sig < 1 || stop.sig >= NSIG || Flag(w.stopFlags, stop.sig) then Shown(told)
      else Resumed(told)
  }

  function Replanted(bps: seq<Bp>, addr: nat): seq<Bp> {
    var i := FindBp(bps, addr);
    if i < |bps| then bps[i := bps[i].(inserted := true)] else bps
  }

  /** The INT3 is back in place. */
  function Landed(w: World): World {
    w.(bps := Replanted(w.bps, w.pending), pending := 0, phase := AtPrompt)
  }

  /** The end of the step off a lifted breakpoint. A dead target's memory cannot be written. */
  function SteppedOff(w: World, stop: Stop): World {
    if Ended(stop) then Over(w.(pending := 0), stop)
    else if w.phase.SteppingOff? && w.phase.thenRun then Resumed(Landed(w))
    else Shown(Landed(w))
  }

  function React(w: World): World
    requires w.stops != []
  {
    var stop := w.stops[0];
    if w.phase.SteppingOff? then SteppedOff(Arrive(w), stop) else Handled(Arrive(w), stop)
  }

  /** The machine goes on until the user has the prompt, the target is gone, or it never stops again. */
  function Run(w: World): World
    decreases |w.stops|
  {
    if !InFlight(w.phase) || w.stops == [] then w else Run(React(w))
  }

  /** The run from a step off a lifted breakpoint. */
  lemma RunFromStepOff(w: World)
    requires w.phase.SteppingOff? && w.stops != []
    ensures
      var u := Arrive(w);
      Run(w) ==
        if Ended(w.stops[0]) then Over(u.(pending := 0), w.stops[0])
        else if w.phase.thenRun then Run(Resumed(Landed(u)))
        else Shown(Landed(u))
  {
  }

  lemma RunUnfolds(w: World)
    ensures Run(w) == if !InFlight(w.phase) || w.stops == [] then w else Run(React(w))
  {
  }

  // ---- the commands ----

  datatype Command =
    | Break(addr: nat) | Delete(addr: nat) | Ignore(addr: nat, n: nat) | Reset(addr: nat)
    | Condition(addr: nat, cond: Cond) | SetReg(regs: Regs)
    | SetFlags(sig: nat, toStop: Option<bool>, toPass: Option<bool>)
    | WatchAt(addr: nat, len: int, rw: int) | Unwatch(slot: int) | UnwatchAddr(addr: nat) | UnwatchAll
    | Continue | StepInto | StepOver(readable: bool, callLen: nat)

  /** The commands that let the target run. */
  predicate Runs(c: Command) {
    c.Continue? || c.StepInto? || c.StepOver?
  }

  /** A long cut to a 32-bit int. */
  function ToInt(n: nat): (r: int)
    ensures -0x8000_0000 <= r < 0x8000_0000 && (n - r) % 0x1_0000_0000 == 0
  {
    var low := n % 0x1_0000_0000;
    if low < 0x8000_0000 then low else low - 0x1_0000_0000
  }

  /** A breakpoint can be set: the address has none, a slot is free, and the memory is there. */
  predicate Settable(w: World, addr: nat) {
    FindBp(w.bps, addr) == |w.bps| && FreeBp(w.bps) < |w.bps| && Mapped(w.orig, addr) && addr in w.orig
  }

  function BpSet(w: World, addr: nat, temporary: bool): World {
    if !Settable(w, addr) then w
    else
      w.(bps := w.bps[FreeBp(w.bps) := Bp(true, true, temporary, addr, w.orig[addr], 0, 0, NoCond)],
         log := After(w.log, Insert(addr, temporary)))
  }

  function BpDeleted(w: World, addr: nat): World {
    var i := FindBp(w.bps, addr);
    if i == |w.bps| then w else Freed(w.(pending := if w.pending == addr then 0 else w.pending), i)
  }

  function Ignored(w: World, addr: nat, n: int): World {
    var i := FindBp(w.bps, addr);
    if i == |w.bps| then w
    else w.(bps := w.bps[i := w.bps[i].(ignoreCount := n)], log := After(w.log, SetIgnore(addr, n)))
  }

  function HitsReset(w: World, addr: nat): World {
    var i := FindBp(w.bps, addr);
    if i == |w.bps| then w
    else w.(bps := w.bps[i := w.bps[i].(hitCount := 0)], log := After(w.log, ResetHits(addr)))
  }

  function Conditioned(w: World, addr: nat, c: Cond): World {
    var i := FindBp(w.bps, addr);
    if i == |w.bps| || (c.Cond? && c.reg !in REG_NAMES) then w
    else w.(bps := w.bps[i := w.bps[i].(cond := StoredCond(c))], log := After(w.log, SetCond(addr, StoredCond(c))))
  }

  function FlagsSet(w: World, sig: nat, toStop: Option<bool>, toPass: Option<bool>): World {
    if sig < 1 || sig >= |w.stopFlags| || sig >= |w.passFlags| then w
    else
      w.(stopFlags := w.stopFlags[sig := if toStop.Some? then toStop.value else w.stopFlags[sig]],
         passFlags := w.passFlags[sig := if toPass.Some? then toPass.value else w.passFlags[sig]],
         log := After(w.log, Handle(sig, toStop, toPass)))
  }

  function WatchesNow(w: World, ws: seq<Watch>): World {
    w.(watches := ws, log := After(w.log, Watching(ws)))
  }

  /** The first slot that is not enabled; the table's length if there is none. */
  function FreeWatch(ws: seq<Watch>): (i: nat)
    ensures i <= |ws|
    ensures forall k :: 0 <= k < i ==> ws[k].enabled
    ensures i < |ws| ==> !ws[i].enabled
  {
    if ws == [] || !ws[0].enabled then 0 else 1 + FreeWatch(ws[1..])
  }

  /** The first enabled slot at this address; the table's length if there is none. */
  function FindWatch(ws: seq<Watch>, addr: nat): (i: nat)
    ensures i <= |ws|
    ensures forall k :: 0 <= k < i ==> !(ws[k].enabled && ws[k].addr == addr)
    ensures i < |ws| ==> ws[i].enabled && ws[i].addr == addr
  {
    if ws == [] || (ws[0].enabled && ws[0].addr == addr) then 0 else 1 + FindWatch(ws[1..], addr)
  }

  function Watched(w: World, addr: nat, len: int, rw: int): World {
    var added := Watch(addr, len, rw, true);
    if !ValidMode(len, rw) || !Aligned(addr, len) || added in w.watches || FreeWatch(w.watches) == |w.watches| then w
    else WatchesNow(w, w.watches[FreeWatch(w.watches) := added])
  }

  function Unwatched(w: World, slot: int): World {
    if slot < 0 || slot >= |w.watches| || !w.watches[slot].enabled then w
    else
      WatchesNow(w.(hwExec := if w.hwExec == slot then -1 else w.hwExec),
                 w.watches[slot := w.watches[slot].(enabled := false)])
  }

  function UnwatchedAt(w: World, addr: nat): World {
    if FindWatch(w.watches, addr) == |w.watches| then w else Unwatched(w, FindWatch(w.watches, addr))
  }

  function AllOff(ws: seq<Watch>): (off: seq<Watch>)
    ensures |off| == |ws|
    ensures forall i :: 0 <= i < |ws| ==> off[i] == ws[i].(enabled := false)
  {
    seq(|ws|, i requires 0 <= i < |ws| => ws[i].(enabled := false))
  }

  function NoneWatched(w: World): World {
    var off := w.(hwExec := -1);
    if AllOff(w.watches) == w.watches then off else WatchesNow(off, AllOff(w.watches))
  }

  function Continued(w: World): World {
    var ready := RfSet(w);
    if w.pending != 0 then Stepped(ready, SteppingOff(true)) else Resumed(ready)
  }

  function SteppedInto(w: World): World {
    Stepped(RfSet(w), if w.pending != 0 then SteppingOff(false) else Running)
  }

  function Behind(w: World, callLen: nat): nat {
    (w.regs.rip + callLen) % TWO_64
  }

  /** The temporary breakpoint of a step-over whose target is gone: only the slot is left to clear. */
  function Cleared(w: World, addr: nat): World {
    var i := FindBp(w.bps, addr);
    if w.phase != Gone || i == |w.bps| || !w.bps[i].temporary then w
    else w.(bps := w.bps[i := w.bps[i].(inserted := false, used := false)])
  }

  /** Over a call by a temporary breakpoint behind it; a single step if it cannot be set. */
  function PastCall(w: World, callLen: nat): World {
    var behind := Behind(w, callLen);
    if w.pending != 0 then Run(Stepped(w, SteppingOff(false)))
    else if callLen == 0 || !Settable(w, behind) then Run(Stepped(w, Running))
    else Cleared(Run(Resumed(BpSet(w, behind, true))), behind)
  }

  predicate OnWatches(c: Command) {
    c.WatchAt? || c.Unwatch? || c.UnwatchAddr? || c.UnwatchAll?
  }

  function BpEdited(w: World, c: Command): World
    requires !Runs(c) && !OnWatches(c) && !c.SetFlags? && !c.SetReg?
  {
    match c
    case Break(addr) => BpSet(w, addr, false)
    case Delete(addr) => BpDeleted(w, addr)
    case Ignore(addr, n) => Ignored(w, addr, ToInt(n))
    case Reset(addr) => HitsReset(w, addr)
    case Condition(addr, cond) => Conditioned(w, addr, cond)
  }

  function WatchEdited(w: World, c: Command): World
    requires OnWatches(c)
  {
    match c
    case WatchAt(addr, len, rw) => Watched(w, addr, len, rw)
    case Unwatch(slot) => Unwatched(w, slot)
    case UnwatchAddr(addr) => UnwatchedAt(w, addr)
    case UnwatchAll => NoneWatched(w)
  }

  /** A command that leaves the target stopped. */
  function Edited(w: World, c: Command): World
    requires !Runs(c)
  {
    if c.SetFlags? then FlagsSet(w, c.sig, c.toStop, c.toPass)
    else if c.SetReg? then w.(regs := c.regs)
    else if OnWatches(c) then WatchEdited(w, c)
    else BpEdited(w, c)
  }

  function Do(w: World, c: Command): World {
    match c
    case Continue => Run(Continued(w))
    case StepInto => Run(SteppedInto(w))
    case StepOver(readable, callLen) => if readable then PastCall(RfSet(w), callLen) else RfSet(w)
    case _ => Edited(w, c)
  }

  /** Commands are read as long as the user has the prompt. */
  function DoAll(w: World, cmds: seq<Command>): World
    decreases |cmds|
  {
    if cmds == [] || w.phase != AtPrompt then w else DoAll(Do(w, cmds[0]), cmds[1..])
  }

  const NO_BPS: seq<Bp> := seq(MAX_BPS, _ => FREE)

  function Fresh(orig: Memory, regs: Regs, stops: seq<Stop>): World {
    World(NO_BPS, 0, NO_WATCHES, -1, seq(NSIG, s => s !in BENIGN), seq(NSIG, _ => true), 0, 0, 0,
          orig, regs, {}, stops, Start(orig), AtPrompt)
  }
}
