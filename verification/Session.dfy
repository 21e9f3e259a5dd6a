/** The live debugger's session: breakpoint table, watchpoint table, signal tables and the links from one stop to
    the next resume, driven by an arbitrary stream of stops. Every method is proved to do what the machine does. */
module Session {
  import opened Common
  import opened Breakpoints
  import opened DebugRegisters
  import opened Machine
  import opened MachineLaws
  import opened Ptrace
  import opened Registers
  import opened Trace
  import opened Words

  /** DR0-DR3 and DR7 of the target. */
  class DebugUnit {
    var addrs: seq<nat>
    var control: bv32

    constructor ()
      ensures addrs == [0, 0, 0, 0] && control == 0
    {
      addrs, control := [0, 0, 0, 0], 0;
    }
  }

  /** How a command that lets the target run comes back. `Waiting` is a waitpid that never returns because the
      target never stops again. */
  datatype Outcome = Back | Lost | Waiting

  function OutcomeOf(phase: Phase): Outcome {
    match phase
    case AtPrompt => Back
    case Gone => Lost
    case _ => Waiting
  }

  ghost predicate NoWatch(ws: seq<Watch>) {
    forall i :: 0 <= i < |ws| ==> !ws[i].enabled
  }

  /** Enabled watchpoints are well formed, aligned and pairwise distinct. */
  ghost predicate WatchTable(ws: seq<Watch>) {
    && |ws| == HW_WP_SLOTS
    && (forall i :: 0 <= i < |ws| ==> ValidWatch(ws[i]))
    && (forall i, j :: 0 <= i < j < |ws| && ws[i].enabled && ws[j].enabled ==>
          (ws[i].addr, ws[i].len, ws[i].rw) != (ws[j].addr, ws[j].len, ws[j].rw))
  }

  lemma TableGrows(ws: seq<Watch>, slot: nat, w: Watch)
    requires WatchTable(ws) && slot < |ws| && !ws[slot].enabled && ValidWatch(w) && w !in ws
    ensures WatchTable(ws[slot := w])
    ensures forall i :: 0 <= i < |ws| && ws[i].enabled ==> ws[slot := w][i] == ws[i]
  {
  }

  lemma TableShrinks(ws: seq<Watch>, off: seq<Watch>)
    requires WatchTable(ws) && |off| == |ws|
    requires forall i :: 0 <= i < |ws| ==> off[i] == ws[i] || off[i] == ws[i].(enabled := false)
    ensures WatchTable(off)
  {
  }

  /** Slot `i` is the last enabled execute slot whose bit is set. */
  ghost predicate LastFired(ws: seq<Watch>, bits: set<nat>, i: nat) {
    && i < |ws| && i in bits && ws[i].enabled && ws[i].rw == 0
    && forall k :: i < k < |ws| && k in bits && ws[k].enabled ==> ws[k].rw != 0
  }

  lemma NothingPlanted(bps: seq<Bp>, orig: Memory)
    requires 0 !in orig && forall i :: 0 <= i < |bps| ==> bps[i] == FREE
    ensures Consistent(bps, 0, orig, orig)
  {
    assert PlantedAddrs(bps) == {};
  }

  class Session {
    const proc: Inferior
    const dbg: DebugUnit
    const bps: array<Bp>
    const hwWps: array<Watch>
    const sigStop: array<bool>
    const sigProgram: array<bool>
    var alive: bool
    var lastSig: nat
    var exitedCode: int
    var signaledSig: nat
    var pendingBp: nat
    var regs: Regs
    var pendingHwExec: int

    /** The session as the machine sees it, in this phase. */
    ghost function W(phase: Phase): World
      reads this, proc, bps, hwWps, sigStop, sigProgram
    {
      World(bps[..], pendingBp, hwWps[..], pendingHwExec, sigStop[..], sigProgram[..], lastSig,
            exitedCode, signaledSig, proc.orig, proc.regs, proc.dr6, proc.stops, proc.trace, phase)
    }

    /** Sizes of the tables. */
    ghost predicate Shape() {
      && bps.Length == MAX_BPS && hwWps.Length == HW_WP_SLOTS
      && sigStop.Length == NSIG && sigProgram.Length == NSIG && sigStop != sigProgram
    }

    /** The debug registers hold the encoding of the table, or are still clear, before the first watchpoint. */
    ghost predicate HwOk()
      reads hwWps, dbg
    {
      && WatchTable(hwWps[..])
      && |dbg.addrs| == 4
      && (forall i :: 0 <= i < hwWps.Length ==> dbg.addrs[i] == if hwWps[i].enabled then hwWps[i].addr else 0)
      && (dbg.control == Encode(hwWps[..]) || (dbg.control == 0 && NoWatch(hwWps[..])))
    }

    /** A pending execute watchpoint is an enabled execute slot. */
    ghost predicate ExecOk()
      reads this`pendingHwExec, hwWps
    {
      || pendingHwExec == -1
      || (0 <= pendingHwExec < hwWps.Length && hwWps[pendingHwExec].enabled && hwWps[pendingHwExec].rw == 0)
    }

    /** The target lives, and its memory is its own but for the planted breakpoints. */
    ghost predicate Sound()
      reads this`alive, this`pendingBp, proc, bps
    {
      alive && proc.live && Consistent(bps[..], pendingBp, proc.mem, proc.orig)
    }

    /** The target lives and is stopped. */
    ghost predicate Ready()
      reads this, proc, bps, hwWps
    {
      Shape() && Sound() && ExecOk()
    }

    /** The user has the prompt. */
    ghost predicate Valid()
      reads this, proc, bps, hwWps, dbg
    {
      Ready() && HwOk() && regs == proc.regs
    }

    constructor (proc: Inferior)
      requires proc.live && proc.mem == proc.orig && proc.trace == Start(proc.orig) && 0 !in proc.orig && proc.dr6 == {}
      ensures Valid() && this.proc == proc
      ensures fresh(bps) && fresh(hwWps) && fresh(dbg) && fresh(sigStop) && fresh(sigProgram)
      ensures W(AtPrompt) == Fresh(proc.orig, proc.regs, proc.stops)
    {
      this.proc := proc;
      dbg := new DebugUnit();
      bps := new Bp[MAX_BPS](_ => FREE);
      hwWps := new Watch[HW_WP_SLOTS](_ => NO_WATCH);
      sigStop := new bool[NSIG](i => i !in BENIGN);
      sigProgram := new bool[NSIG](_ => true);
      alive, lastSig, exitedCode, signaledSig, pendingBp := true, 0, 0, 0, 0;
      regs := proc.regs;
      pendingHwExec := -1;
      new;
      assert forall i :: 0 <= i < HW_WP_SLOTS ==> hwWps[i] == NO_WATCH && dbg.addrs[i] == 0;
      assert HwOk();
      NothingPlanted(bps[..], proc.orig);
      assert bps[..] == NO_BPS;
      assert hwWps[..] == NO_WATCHES;
      assert sigStop[..] == seq(NSIG, s => s !in BENIGN);
      assert sigProgram[..] == seq(NSIG, _ => true);
    }

    // ---- memory and registers ----

    /** POKETEXT writes a word, so the byte is merged into the word that is there. */
    method MemWriteByte(addr: nat, b: byte) returns (ok: bool)
      modifies proc`mem
      ensures ok == (alive && proc.live && Mapped(old(proc.mem), addr))
      ensures proc.mem == if ok then old(proc.mem)[addr := b] else old(proc.mem)
    {
      if !alive {
        return false;
      }
      var word := proc.PeekText(addr);
      if word.None? {
        return false;
      }
      PackedWordIsMemory(proc.mem, addr, b);
      ok := proc.PokeText(addr, WithLowByte(word.value, b));
    }

    method RefreshRegs() returns (ok: bool)
      modifies this`regs
      ensures ok == (alive && proc.live)
      ensures regs == if ok then proc.regs else old(regs)
    {
      ok := alive && proc.live;
      if ok {
        regs := proc.regs;
      }
    }

    // ---- breakpoint table ----

    method BpFind(addr: nat) returns (i: int)
      ensures i == if FindBp(bps[..], addr) < bps.Length then FindBp(bps[..], addr) else -1
      ensures i >= 0 ==> i < bps.Length && bps[i].used && bps[i].addr == addr
    {
      i := 0;
      while i < bps.Length
        invariant 0 <= i <= bps.Length
        invariant forall k :: 0 <= k < i ==> !(bps[k].used && bps[k].addr == addr)
      {
        if bps[i].used && bps[i].addr == addr {
          assert bps[..][i] == bps[i];
          return;
        }
        i := i + 1;
      }
      i := -1;
    }

    method BpAlloc() returns (i: int)
      ensures i == if FreeBp(bps[..]) < bps.Length then FreeBp(bps[..]) else -1
      ensures i >= 0 ==> i < bps.Length && !bps[i].used
    {
      i := 0;
      while i < bps.Length
        invariant 0 <= i <= bps.Length
        invariant forall k :: 0 <= k < i ==> bps[k].used
      {
        if !bps[i].used {
          assert bps[..][i] == bps[i];
          return;
        }
        i := i + 1;
      }
      i := -1;
    }

    method BpInsert(addr: nat, temporary: bool) returns (ok: bool)
      requires Shape() && Sound()
      modifies proc`mem, proc`trace, bps
      ensures Sound() && ok == Settable(old(W(AtPrompt)), addr)
      ensures W(AtPrompt) == BpSet(old(W(AtPrompt)), addr, temporary)
      // it works for an address without a breakpoint, a free slot and mapped memory: the INT3 and one slot are new
      ensures ok <==>
        addr !in UsedAddrs(old(bps[..])) && HasFree(old(bps[..])) && Mapped(proc.orig, addr)
      ensures ok ==> BpAdded(old(bps[..]), bps[..], addr, temporary, proc.orig)
      ensures ok ==> UsedAddrs(bps[..]) == UsedAddrs(old(bps[..])) + {addr}
      ensures ok ==> proc.mem == old(proc.mem)[addr := INT3]
      ensures ok ==> proc.trace == After(old(proc.trace), Insert(addr, temporary))
      ensures !ok ==> bps[..] == old(bps[..]) && proc.mem == old(proc.mem) && proc.trace == old(proc.trace)
    {
      var found := BpFind(addr);
      if found >= 0 {
        return false;
      }
      var i := BpAlloc();
      if i < 0 {
        return false;
      }
      NotUsed(bps[..], addr);
      MappedInOverlay(bps[..], pendingBp, proc.mem, proc.orig, addr);
      var word := proc.PeekText(addr);
      if word.None? {
        return false;
      }
      PackedWordLowByte(proc.mem, addr);
      ok := PlantInt3(i, Bp(true, false, temporary, addr, word.value % 256, 0, 0, NoCond));
      proc.Log(Insert(addr, temporary));
    }

    /** Slot `i` becomes this breakpoint and its INT3 goes into memory. */
    method PlantInt3(i: int, b: Bp) returns (ok: bool)
      requires Shape() && Sound() && 0 <= i < bps.Length && !bps[i].used && b.used
      requires b.addr !in UsedAddrs(bps[..]) && Mapped(proc.orig, b.addr) && b.addr in proc.orig
      requires b.shadow == proc.orig[b.addr]
      modifies proc`mem, bps
      ensures Sound() && ok && bps[..] == old(bps[..])[i := b.(inserted := true)]
      ensures proc.mem == old(proc.mem)[b.addr := INT3] && UsedAddrs(bps[..]) == UsedAddrs(old(bps[..])) + {b.addr}
    {
      ghost var before := bps[..];
      MappedInOverlay(before, pendingBp, proc.mem, proc.orig, b.addr);
      Plant(before, pendingBp, proc.mem, proc.orig, i, b.(inserted := true));
      bps[i] := b;
      ok := MemWriteByte(b.addr, INT3);
      if !ok {
        bps[i] := bps[i].(used := false);
        return;
      }
      bps[i] := bps[i].(inserted := true);
      assert bps[..] == before[i := b.(inserted := true)];
    }

    method BpRemove(addr: nat) returns (ok: bool)
      requires Shape() && Sound()
      modifies this`pendingBp, proc`mem, proc`trace, bps
      ensures Sound() && (ok <==> addr in UsedAddrs(old(bps[..])))
      ensures W(AtPrompt) == BpDeleted(old(W(AtPrompt)), addr)
      ensures UsedAddrs(bps[..]) == UsedAddrs(old(bps[..])) - {addr}
      ensures forall i :: 0 <= i < bps.Length ==>
        bps[i] ==
          if old(bps[i].used && bps[i].addr == addr) then old(bps[i]).(inserted := false, used := false)
          else old(bps[i])
      ensures pendingBp == if ok && old(pendingBp) == addr then 0 else old(pendingBp)
    {
      var i := BpFind(addr);
      if i < 0 {
        NotUsed(bps[..], addr);
        return false;
      }
      ghost var before := bps[..];
      assert before[i] == bps[i];
      MappedInOverlay(before, pendingBp, proc.mem, proc.orig, addr);
      Remove(before, pendingBp, proc.mem, proc.orig, i, bps[i].(inserted := false, used := false));
      if bps[i].inserted {
        var restored := MemWriteByte(bps[i].addr, bps[i].shadow);
        bps[i] := bps[i].(inserted := false);
      }
      if pendingBp == bps[i].addr {
        pendingBp := 0;
      }
      bps[i] := bps[i].(used := false);
      proc.Log(Free(addr));
      assert bps[..] == before[i := before[i].(inserted := false, used := false)];
      ok := true;
    }

    // ---- hardware watchpoints ----

    /** Push the table into DR0-DR3 and DR7. */
    method WpApply() returns (ok: bool)
      requires Shape() && |dbg.addrs| == 4
      modifies dbg
      ensures ok == (alive && proc.live) && |dbg.addrs| == 4
      ensures ok ==> forall i :: 0 <= i < 4 ==> dbg.addrs[i] == if hwWps[i].enabled then hwWps[i].addr else 0
      ensures ok ==> dbg.control == Encode(hwWps[..])
      ensures !ok ==> unchanged(dbg)
    {
      if !alive || !proc.live {
        return false;
      }
      for i := 0 to HW_WP_SLOTS
        invariant |dbg.addrs| == 4
        invariant forall k :: 0 <= k < i ==> dbg.addrs[k] == if hwWps[k].enabled then hwWps[k].addr else 0
      {
        dbg.addrs := dbg.addrs[i := if hwWps[i].enabled then hwWps[i].addr else 0];
      }
      dbg.control := ComputeDr7(hwWps[..]);
      ok := true;
    }

    /** An enabled watchpoint exactly like this one. */
    method WpDuplicate(addr: nat, len: int, rw: int) returns (found: bool)
      requires Shape()
      ensures found <==> Watch(addr, len, rw, true) in hwWps[..]
    {
      for i := 0 to HW_WP_SLOTS
        invariant forall k :: 0 <= k < i ==> hwWps[k] != Watch(addr, len, rw, true)
      {
        if hwWps[i].enabled && hwWps[i].addr == addr && hwWps[i].len == len && hwWps[i].rw == rw {
          assert hwWps[..][i] == Watch(addr, len, rw, true);
          return true;
        }
      }
      found := false;
    }

    method WpFreeSlot() returns (slot: int)
      requires Shape()
      ensures slot == if FreeWatch(hwWps[..]) < HW_WP_SLOTS then FreeWatch(hwWps[..]) else -1
    {
      slot := 0;
      while slot < HW_WP_SLOTS
        invariant 0 <= slot <= HW_WP_SLOTS
        invariant forall k :: 0 <= k < slot ==> hwWps[k].enabled
      {
        if !hwWps[slot].enabled {
          assert !hwWps[..][slot].enabled;
          return;
        }
        slot := slot + 1;
      }
      slot := -1;
    }

    method WpSet(addr: nat, len: int, rw: int) returns (ok: bool)
      requires Shape() && alive && proc.live && HwOk() && ExecOk()
      modifies hwWps, dbg, proc`trace
      ensures HwOk() && ExecOk() && W(AtPrompt) == Watched(old(W(AtPrompt)), addr, len, rw)
      ensures ok ==> dbg.control == Encode(hwWps[..])
      ensures ok <==>
        && ValidMode(len, rw) && Aligned(addr, len)
        && Watch(addr, len, rw, true) !in old(hwWps[..]) && FreeWatch(old(hwWps[..])) < HW_WP_SLOTS
      // the watchpoint is in a slot that was free, and nothing else changes
      ensures ok ==> WatchAdded(old(hwWps[..]), hwWps[..], Watch(addr, len, rw, true))
      ensures !ok ==> hwWps[..] == old(hwWps[..])
    {
      if !ValidMode(len, rw) || !Aligned(addr, len) {
        return false;
      }
      var found := WpDuplicate(addr, len, rw);
      if found {
        return false;
      }
      var slot := WpFreeSlot();
      if slot < 0 {
        return false;
      }
      ghost var before := hwWps[..];
      hwWps[slot] := Watch(addr, len, rw, true);
      assert hwWps[..] == before[slot := Watch(addr, len, rw, true)];
      TableGrows(before, slot, Watch(addr, len, rw, true));
      ok := WpApply();
      proc.Log(Watching(hwWps[..]));
    }

    method WpRemoveSlot(slot: int) returns (ok: bool)
      requires Shape() && alive && proc.live && HwOk() && ExecOk()
      modifies this`pendingHwExec, hwWps, dbg, proc`trace
      ensures HwOk() && ExecOk() && W(AtPrompt) == Unwatched(old(W(AtPrompt)), slot)
      ensures ok <==> 0 <= slot < HW_WP_SLOTS && old(hwWps[..])[slot].enabled
      ensures ok ==> dbg.control == Encode(hwWps[..])
      ensures hwWps[..] ==
        if ok then old(hwWps[..])[slot := old(hwWps[..])[slot].(enabled := false)] else old(hwWps[..])
      ensures pendingHwExec == if ok && old(pendingHwExec) == slot then -1 else old(pendingHwExec)
    {
      if slot < 0 || slot >= HW_WP_SLOTS || !hwWps[slot].enabled {
        return false;
      }
      ghost var before := hwWps[..];
      hwWps[slot] := hwWps[slot].(enabled := false);
      assert hwWps[..] == before[slot := before[slot].(enabled := false)];
      if pendingHwExec == slot {
        pendingHwExec := -1;
      }
      ok := WpApply();
      proc.Log(Watching(hwWps[..]));
    }

    /** Removes the first enabled slot that watches this address. */
    method WpRemoveAddr(addr: nat) returns (ok: bool)
      requires Shape() && alive && proc.live && HwOk() && ExecOk()
      modifies this`pendingHwExec, hwWps, dbg, proc`trace
      ensures HwOk() && ExecOk() && W(AtPrompt) == UnwatchedAt(old(W(AtPrompt)), addr)
      ensures ok <==> exists i :: 0 <= i < HW_WP_SLOTS && old(hwWps[i].enabled && hwWps[i].addr == addr)
      ensures !ok ==> hwWps[..] == old(hwWps[..])
      ensures ok ==> WatchDropped(old(hwWps[..]), hwWps[..], addr)
    {
      ghost var before := hwWps[..];
      for i := 0 to HW_WP_SLOTS
        invariant forall k :: 0 <= k < i ==> !(before[k].enabled && before[k].addr == addr)
      {
        if hwWps[i].enabled && hwWps[i].addr == addr {
          assert before[i].enabled && before[i].addr == addr;
          assert FindWatch(before, addr) == i;
          ok := WpRemoveSlot(i);
          return;
        }
      }
      assert FindWatch(before, addr) == |before|;
      ok := false;
    }

    method WpDisableAll() returns (any: bool)
      requires Shape()
      modifies hwWps
      ensures hwWps[..] == AllOff(old(hwWps[..])) && any == (hwWps[..] != old(hwWps[..]))
    {
      any := false;
      for i := 0 to HW_WP_SLOTS
        invariant forall k :: 0 <= k < i ==> hwWps[k] == old(hwWps[k]).(enabled := false)
        invariant forall k :: i <= k < HW_WP_SLOTS ==> hwWps[k] == old(hwWps[k])
        invariant any <==> exists k :: 0 <= k < i && old(hwWps[k].enabled)
      {
        if hwWps[i].enabled {
          hwWps[i] := hwWps[i].(enabled := false);
          any := true;
        }
      }
      if any {
        ghost var k :| 0 <= k < HW_WP_SLOTS && old(hwWps[k].enabled);
        assert hwWps[..][k] != old(hwWps[..])[k];
      }
    }

    method WpRemoveAll()
      requires Shape() && alive && proc.live && HwOk() && ExecOk()
      modifies this`pendingHwExec, hwWps, dbg, proc`trace
      ensures HwOk() && ExecOk() && W(AtPrompt) == NoneWatched(old(W(AtPrompt)))
      ensures NoWatch(hwWps[..]) && pendingHwExec == -1
      ensures forall i :: 0 <= i < HW_WP_SLOTS ==> hwWps[i] == old(hwWps[i]).(enabled := false)
    {
      var any := WpDisableAll();
      pendingHwExec := -1;
      if any {
        TableShrinks(old(hwWps[..]), hwWps[..]);
        var _ := WpApply();
        proc.Log(Watching(hwWps[..]));
      }
    }

    /** Did this stop hit an enabled watchpoint? DR6 is cleared whenever it had a hit bit, and the last execute slot
        that fired is remembered for the next resume. */
    method WpCheckHit() returns (hit: bool)
      requires Shape() && ExecOk()
      modifies this`pendingHwExec, proc`dr6
      ensures ExecOk() && hit == WatchHit(hwWps[..], old(proc.dr6))
      ensures W(Running) == Dr6Read(old(W(Running)))
      // the sticky bits are cleared, and the last execute slot that fired is remembered
      ensures proc.dr6 == if SomeSlot(old(proc.dr6)) then {} else old(proc.dr6)
      ensures (pendingHwExec >= 0 && LastFired(hwWps[..], old(proc.dr6), pendingHwExec)) ||
        (pendingHwExec == old(pendingHwExec) && forall i :: !LastFired(hwWps[..], old(proc.dr6), i))
    {
      hit := false;
      if !SomeSlot(proc.dr6) {
        return;
      }
      var execSlotHit := -1;
      for i := 0 to HW_WP_SLOTS
        invariant hit <==> exists k :: 0 <= k < i && k in proc.dr6 && hwWps[k].enabled
        invariant execSlotHit == LastExec(hwWps[..], proc.dr6, i)
        invariant execSlotHit >= 0 ==> execSlotHit < i && hwWps[execSlotHit].enabled && hwWps[execSlotHit].rw == 0
        invariant execSlotHit >= -1
      {
        if i in proc.dr6 && hwWps[i].enabled {
          hit := true;
          if hwWps[i].rw == 0 {
            execSlotHit := i;
          }
        }
      }
      proc.dr6 := {};
      if execSlotHit >= 0 {
        pendingHwExec := execSlotHit;
      }
    }

    /** Set RF so that an execute watchpoint under rip does not fire again at once. */
    method WpSetRfForExecResume() returns (ok: bool)
      requires Shape() && ExecOk() && alive && proc.live
      modifies this`regs, this`pendingHwExec, proc`regs
      ensures ExecOk() && ok && W(AtPrompt) == RfSet(old(W(AtPrompt)))
      ensures old(regs == proc.regs) ==> regs == proc.regs
      ensures old(pendingHwExec) < 0 ==> proc.regs == old(proc.regs) && pendingHwExec == old(pendingHwExec)
      ensures old(pendingHwExec) >= 0 ==>
        && pendingHwExec == -1 && proc.regs == old(proc.regs).(eflags := proc.regs.eflags)
        && proc.regs.eflags / 0x1_0000 % 2 == 1 && proc.regs.eflags % 0x1_0000 == old(proc.regs.eflags) % 0x1_0000
        && proc.regs.eflags / 0x2_0000 == old(proc.regs.eflags) / 0x2_0000
    {
      if pendingHwExec < 0 {
        return true;
      }
      WithRfSetsBit16(proc.regs.eflags);
      ok := RefreshRegs();
      if !ok {
        return;
      }
      regs := regs.(eflags := WithRf(regs.eflags));
      proc.regs := regs;
      pendingHwExec := -1;
    }

    // ---- resuming ----

    /** Put the lifted INT3 back; a dead target's memory cannot be written. */
    method ReplantPending()
      requires Shape() && alive && pendingBp != 0 && Consistent(bps[..], pendingBp, proc.mem, proc.orig)
      modifies this`pendingBp, proc`mem, bps
      ensures pendingBp == 0
      ensures bps[..] == if proc.live then Replanted(old(bps[..]), old(pendingBp)) else old(bps[..])
      ensures proc.live ==> Sound()
    {
      ghost var before := bps[..];
      NotUsed(before, pendingBp);
      var i := BpFind(pendingBp);
      if i >= 0 && !bps[i].inserted {
        assert before[i] == bps[i];
        MappedInOverlay(before, pendingBp, proc.mem, proc.orig, bps[i].addr);
        Replant(before, pendingBp, proc.mem, proc.orig, i);
        var ok := MemWriteByte(bps[i].addr, INT3);
        if ok {
          bps[i] := bps[i].(inserted := true);
          assert bps[..] == before[i := before[i].(inserted := true)];
        }
      }
      pendingBp := 0;
    }

    /** What a run leaves: the machine's world, and a sound session unless the target is gone. */
    ghost predicate Came(out: Outcome, r: World)
      reads this, proc, bps, hwWps, sigStop, sigProgram
    {
      && W(r.phase) == r && out == OutcomeOf(r.phase)
      && (r.phase == Gone <==> !alive)
      && (alive ==> Sound() && ExecOk())
      && (r.phase == AtPrompt ==> regs == proc.regs)
    }

    /** The end of the target. */
    method End(stop: Stop)
      requires Ended(stop)
      modifies this`alive, this`exitedCode, this`signaledSig
      ensures !alive && W(Gone) == Over(old(W(Running)), stop)
      ensures exitedCode == if stop.Exited? then stop.code else old(exitedCode)
      ensures signaledSig == if stop.Killed? then stop.termSig else old(signaledSig)
    {
      alive := false;
      match stop {
        case Exited(code) => exitedCode := code;
        case Killed(sig) => signaledSig := sig;
      }
    }

    /** If the target sits on a lifted breakpoint, step off it. */
    method ResumeStepOverBp(ghost thenRun: bool) returns (r: Outcome)
      requires Ready()
      modifies this`alive, this`exitedCode, this`signaledSig, this`pendingBp, proc, bps
      ensures old(pendingBp) == 0 ==> r == Back && W(AtPrompt) == old(W(AtPrompt)) && Sound()
      ensures old(pendingBp) != 0 ==> SteppedOffTo(Run(Stepped(old(W(AtPrompt)), SteppingOff(thenRun))), thenRun, r)
      ensures r == Back && old(pendingBp) != 0 ==> |proc.stops| < |old(proc.stops)|
    {
      r := Back;
      if pendingBp != 0 {
        r := StepOverBp(thenRun);
      }
    }

    /** Single-step the target off a lifted breakpoint and put the INT3 back. The stop that ends the single step is
        not looked at further. */
    method StepOverBp(ghost thenRun: bool) returns (r: Outcome)
      requires Ready() && pendingBp != 0
      modifies this`alive, this`exitedCode, this`signaledSig, this`pendingBp, proc, bps
      ensures SteppedOffTo(Run(Stepped(old(W(AtPrompt)), SteppingOff(thenRun))), thenRun, r)
      ensures r == Back ==> |proc.stops| < |old(proc.stops)|
    {
      ghost var stepped := Stepped(W(AtPrompt), SteppingOff(thenRun));
      proc.SingleStep();
      var stop := proc.WaitPid();
      if stop.None? {
        return Waiting;
      }
      RunFromStepOff(stepped);
      ReplantPending();
      if Ended(stop.value) {
        End(stop.value);
        return Lost;
      }
      r := Back;
    }

    /** The machine's run from the step off a breakpoint, seen from where the step came back. */
    ghost predicate SteppedOffTo(run: World, thenRun: bool, r: Outcome)
      reads this, proc, bps, hwWps, sigStop, sigProgram
    {
      if r == Back then
        && Sound() && pendingBp == 0
        && run == if thenRun then Run(Resumed(W(AtPrompt))) else Shown(W(AtPrompt))
      else Came(r, run)
    }

    // ---- stops ----

    /** The original byte goes back, so that the next resume can step over it. */
    method LiftInt3(i: int) returns (ok: bool)
      requires Shape() && Sound() && pendingBp == 0 && 0 <= i < bps.Length && bps[i].used
      modifies this`pendingBp, proc`mem, bps
      ensures Sound() && ok && pendingBp == old(bps[i].addr) && pendingBp != 0
      ensures bps[..] == old(bps[..])[i := old(bps[i]).(inserted := false)]
    {
      ghost var before := bps[..];
      assert before[i] == bps[i];
      NotUsed(before, bps[i].addr);
      MappedInOverlay(before, 0, proc.mem, proc.orig, bps[i].addr);
      Lift(before, proc.mem, proc.orig, i, bps[i].(inserted := false));
      ok := MemWriteByte(bps[i].addr, bps[i].shadow);
      if ok {
        bps[i] := bps[i].(inserted := false);
        pendingBp := bps[i].addr;
      }
      assert bps[..] == before[i := before[i].(inserted := false)];
    }

    /** An INT3 of the user's fired and rip is back on it: lift it, count the hit, and decide whether to stop. */
    method TakeHit(i: int) returns (stop: bool)
      requires Shape() && Sound() && pendingBp == 0 && regs == proc.regs
      requires 0 <= i < bps.Length && bps[i].used
      modifies this`pendingBp, proc`mem, proc`trace, bps
      ensures Sound() && pendingBp != 0
      ensures stop == HitStops(old(W(Running)), old(bps[i]))
      ensures W(Running) == HitCounted(old(W(Running)), i)
    {
      var _ := LiftInt3(i);
      var holds := CondTrue(bps[i].cond, regs);
      stop := holds && bps[i].ignoreCount <= 0;
      var left := if holds && bps[i].ignoreCount > 0 then bps[i].ignoreCount - 1 else bps[i].ignoreCount;
      Change(i, bps[i].(hitCount := bps[i].hitCount + 1, ignoreCount := left), Hit(bps[i].addr, holds, stop));
    }

    /** A change of a slot's counters or condition. */
    method Change(i: int, b: Bp, ghost e: Entry)
      requires Shape() && Sound() && 0 <= i < bps.Length && !e.Recv? && !e.Step? && !e.Cont?
      requires b.used == bps[i].used && b.inserted == bps[i].inserted
      requires b.addr == bps[i].addr && b.shadow == bps[i].shadow
      modifies proc`trace, bps
      ensures Sound()
      ensures bps[..] == old(bps[..])[i := b] && proc.trace == After(old(proc.trace), e)
    {
      Recount(bps[..], pendingBp, proc.mem, proc.orig, i, b);
      bps[i] := b;
      assert bps[..] == old(bps[..])[i := b];
      proc.Log(e);
    }

    /** A temporary INT3 fired: its byte is restored and its slot freed. */
    method TakeTemporaryHit(i: int)
      requires Shape() && Sound() && pendingBp == 0
      requires 0 <= i < bps.Length && bps[i].used
      modifies this`pendingBp, proc`mem, proc`trace, bps
      ensures Sound() && pendingBp == 0
      ensures W(Running) == Freed(old(W(Running)), i)
    {
      ghost var before := bps[..];
      assert before[i] == bps[i];
      NotUsed(before, bps[i].addr);
      MappedInOverlay(before, 0, proc.mem, proc.orig, bps[i].addr);
      Remove(before, 0, proc.mem, proc.orig, i, bps[i].(inserted := false, used := false));
      var ok := MemWriteByte(bps[i].addr, bps[i].shadow);
      if ok {
        bps[i] := bps[i].(inserted := false);
        pendingBp := bps[i].addr;
      }
      bps[i] := bps[i].(used := false);
      pendingBp := 0;
      proc.Log(Free(bps[i].addr));
      assert bps[..] == before[i := before[i].(inserted := false, used := false)];
    }

    /** A trap that is not a watchpoint's nor a single step's: rewind rip by one and look for a breakpoint there. Rip
        stays rewound even if there is none. What is left to do is to show the trap, or to go on past it. */
    method HandleInt3() returns (stop: bool)
      requires Shape() && Sound() && pendingBp == 0 && regs == proc.regs
      modifies this`pendingBp, this`regs, proc`mem, proc`regs, proc`trace, bps
      ensures Sound() && regs == proc.regs == Rewound(old(regs)) && (!stop ==> pendingBp != 0)
      ensures Int3(old(W(Running))) == if stop then TrapShown(W(Running)) else AutoContinued(W(Running))
    {
      regs := Rewound(regs);
      proc.regs := regs;
      stop := true;
      var i := BpFind(regs.rip);
      if i >= 0 && bps[i].inserted {
        if bps[i].temporary {
          TakeTemporaryHit(i);
        } else {
          stop := TakeHit(i);
        }
      }
    }

    /** Whether a trap stops at the prompt: a watchpoint's and a single step's always do. */
    method TrapStops(traceTrap: bool) returns (stop: bool)
      requires Ready() && pendingBp == 0
      modifies this`pendingBp, this`regs, this`pendingHwExec, proc`mem, proc`regs, proc`dr6, proc`trace, bps
      ensures Sound() && ExecOk() && regs == proc.regs && (!stop ==> pendingBp != 0)
      ensures
        regs == if WatchHit(hwWps[..], old(proc.dr6)) || traceTrap then old(proc.regs) else Rewound(old(proc.regs))
      ensures Trapped(old(W(Running)), traceTrap) == if stop then TrapShown(W(Running)) else AutoContinued(W(Running))
    {
      var _ := RefreshRegs();
      var hit := WpCheckHit();
      stop := hit || traceTrap;
      if !stop {
        stop := HandleInt3();
      }
    }

    /** A SIGTRAP stop: a watchpoint, a finished single step, a breakpoint or a stray INT3. */
    method HandleSigtrap(traceTrap: bool) returns (out: Outcome)
      requires Ready() && pendingBp == 0
      modifies this`alive, this`lastSig, this`exitedCode, this`signaledSig, this`pendingBp, this`regs
      modifies this`pendingHwExec, proc, bps
      ensures Came(out, Run(Trapped(old(W(Running)), traceTrap)))
      decreases |proc.stops|, 2
    {
      var stop := TrapStops(traceTrap);
      if stop {
        lastSig := 0;
        proc.Log(Prompt);
        return Back;
      }
      out := BpAutoContinue();
    }

    /** Step off the breakpoint just hit, let the target run, and handle its next stop. */
    method BpAutoContinue() returns (out: Outcome)
      requires Ready() && pendingBp != 0
      modifies this`alive, this`lastSig, this`exitedCode, this`signaledSig, this`pendingBp, this`regs
      modifies this`pendingHwExec, proc, bps
      ensures Came(out, Run(AutoContinued(old(W(Running)))))
      decreases |proc.stops|, 1
    {
      lastSig := 0;
      var _ := WpSetRfForExecResume();
      var r := ResumeStepOverBp(true);
      if r != Back {
        return r;
      }
      proc.Continue(0);
      out := WaitAndHandle();
    }

    /** Wait for the stop that ends a resume or a single step, and handle it. */
    method WaitAndHandle() returns (out: Outcome)
      requires Ready() && pendingBp == 0
      modifies this`alive, this`lastSig, this`exitedCode, this`signaledSig, this`pendingBp, this`regs
      modifies this`pendingHwExec, proc, bps
      ensures Came(out, Run(old(W(Running))))
      decreases |proc.stops|, 0
    {
      var stop := proc.WaitPid();
      if stop.None? {
        return Waiting;
      }
      assert W(Running) == Arrive(old(W(Running)));
      out := HandleStop(stop.value);
    }

    /** The top-level stop handler: loops over signals and events the user does not want to see, and comes back at the
        first stop that is the user's or when the target is gone. */
    method HandleStop(first: Stop) returns (out: Outcome)
      requires Shape() && ExecOk() && pendingBp == 0 && alive && proc.live == !Ended(first)
      requires Consistent(bps[..], 0, proc.mem, proc.orig)
      modifies this`alive, this`lastSig, this`exitedCode, this`signaledSig, this`pendingBp, this`regs
      modifies this`pendingHwExec, proc, bps
      ensures Came(out, Run(Handled(old(W(Running)), first)))
      decreases |proc.stops|, 4
    {
      var stop := first;
      ghost var goal := Run(Handled(W(Running), first));
      while true
        invariant ExecOk() && pendingBp == 0 && alive && proc.live == !Ended(stop)
        invariant Consistent(bps[..], 0, proc.mem, proc.orig)
        invariant goal == Run(Handled(W(Running), stop))
        invariant |proc.stops| <= old(|proc.stops|)
        decreases |proc.stops|
      {
        if Ended(stop) || IsTrap(stop) {
          out := EndOrTrap(stop);
          return;
        }
        var next;
        out, next := PassBy(stop);
        if next.None? {
          return;
        }
        stop := next.value;
      }
    }

    /** A signal or an event: it is shown, or passed by up to the next stop, if there is one. */
    method PassBy(stop: Stop) returns (out: Outcome, next: Option<Stop>)
      requires Ready() && pendingBp == 0 && !Ended(stop) && !IsTrap(stop)
      modifies this`lastSig, this`regs, proc
      ensures next.None? ==> Came(out, Run(Handled(old(W(Running)), stop)))
      ensures next.Some? ==>
        && Run(Handled(old(W(Running)), stop)) == Run(Handled(W(Running), next.value))
        && ExecOk() && alive && proc.live == !Ended(next.value) && pendingBp == 0
        && Consistent(bps[..], 0, proc.mem, proc.orig) && |proc.stops| < |old(proc.stops)|
    {
      next := None;
      var shown := ShowOrResume(stop);
      if shown {
        return Back, None;
      }
      RunUnfolds(W(Running));
      next := proc.WaitPid();
      out := Waiting;
    }

    /** The stops that are never passed by: the target's end and the debugger's own trap. */
    method EndOrTrap(stop: Stop) returns (out: Outcome)
      requires Shape() && ExecOk() && pendingBp == 0 && alive && proc.live == !Ended(stop)
      requires Consistent(bps[..], 0, proc.mem, proc.orig) && (Ended(stop) || IsTrap(stop))
      modifies this`alive, this`lastSig, this`exitedCode, this`signaledSig, this`pendingBp, this`regs
      modifies this`pendingHwExec, proc, bps
      ensures Came(out, Run(Handled(old(W(Running)), stop)))
      decreases |proc.stops|, 3
    {
      if Ended(stop) {
        End(stop);
        return Lost;
      }
      lastSig := stop.sig;
      out := HandleSigtrap(stop.traceTrap);
    }

    /** A stop that is no trap of the debugger's: an event or a signal. Either it is shown, or the target is running
        again. */
    method ShowOrResume(stop: Stop) returns (shown: bool)
      requires Shape() && Sound() && pendingBp == 0 && !Ended(stop) && (stop.Stopped? ==> stop.sig != SIGTRAP)
      modifies this`lastSig, this`regs, proc`trace
      ensures W(if shown then AtPrompt else Running) == Handled(old(W(Running)), stop)
      ensures shown ==> regs == proc.regs
    {
      if stop.Forked? {
        lastSig := 0;
        proc.Continue(0);
        return false;
      }
      var sig := stop.sig;
      lastSig := sig;
      if sig < 1 || sig >= NSIG || sigStop[sig] {
        var _ := RefreshRegs();
        proc.Log(Prompt);
        return true;
      }
      proc.Continue(if sigProgram[sig] then sig else 0);
      shown := false;
    }

    // ---- the run commands ----

    /** `dc`: step off a lifted breakpoint if there is one, let the target run, with the last stop's signal if it is
        to be passed, and handle the next stop. */
    method CmdDc() returns (out: Outcome)
      requires alive ==> Ready()
      modifies this`alive, this`lastSig, this`exitedCode, this`signaledSig, this`pendingBp, this`regs
      modifies this`pendingHwExec, proc, bps
      ensures !old(alive) ==> out == Lost && !alive && W(Gone) == old(W(Gone))
      ensures old(alive) ==> Came(out, Run(Continued(old(W(AtPrompt)))))
    {
      if !alive {
        return Lost;
      }
      var _ := WpSetRfForExecResume();
      out := ResumeStepOverBp(true);
      if out != Back {
        return;
      }
      out := ContinueAndHandle();
    }

    /** Let the target run, with the last stop's signal if it is to be passed, and handle the next stop. */
    method ContinueAndHandle() returns (out: Outcome)
      requires Ready() && pendingBp == 0
      modifies this`alive, this`lastSig, this`exitedCode, this`signaledSig, this`pendingBp, this`regs
      modifies this`pendingHwExec, proc, bps
      ensures Came(out, Run(Resumed(old(W(AtPrompt)))))
    {
      proc.Continue(if 0 < lastSig < NSIG && sigProgram[lastSig] then lastSig else 0);
      out := WaitAndHandle();
    }

    /** Single-step the target off an address without a lifted breakpoint. */
    method SingleStep() returns (out: Outcome)
      requires Ready() && pendingBp == 0
      modifies this`alive, this`lastSig, this`exitedCode, this`signaledSig, this`pendingBp, this`regs
      modifies this`pendingHwExec, proc, bps
      ensures Came(out, Run(Stepped(old(W(AtPrompt)), Running)))
    {
      proc.SingleStep();
      out := WaitAndHandle();
    }

    /** Stepping off a lifted breakpoint is the one step; the user gets the prompt. */
    method StepOff() returns (out: Outcome)
      requires Ready() && pendingBp != 0
      modifies this`alive, this`exitedCode, this`signaledSig, this`pendingBp, this`regs, proc, bps
      ensures Came(out, Run(Stepped(old(W(AtPrompt)), SteppingOff(false))))
    {
      out := ResumeStepOverBp(false);
      if out == Back {
        proc.Log(Prompt);
        var _ := RefreshRegs();
      }
    }

    /** `ds`. */
    method CmdDs() returns (out: Outcome)
      requires alive ==> Ready()
      modifies this`alive, this`lastSig, this`exitedCode, this`signaledSig, this`pendingBp, this`regs
      modifies this`pendingHwExec, proc, bps
      ensures !old(alive) ==> out == Lost && !alive && W(Gone) == old(W(Gone))
      ensures old(alive) ==> Came(out, Run(SteppedInto(old(W(AtPrompt)))))
    {
      if !alive {
        return Lost;
      }
      var _ := WpSetRfForExecResume();
      if pendingBp != 0 {
        out := StepOff();
      } else {
        out := SingleStep();
      }
    }

    /** The temporary breakpoint of a step-over whose target is gone: only the slot is left to clear. */
    method ClearTemporary(addr: nat)
      modifies bps
      ensures W(Gone) == Cleared(old(W(Gone)), addr)
    {
      var i := BpFind(addr);
      if i >= 0 && bps[i].temporary {
        ghost var before := bps[..];
        bps[i] := bps[i].(inserted := false, used := false);
        assert bps[..] == before[i := before[i].(inserted := false, used := false)];
      }
    }

    /** Run to a temporary breakpoint at `nextPc`; if it cannot be set, single-step instead. A temporary breakpoint
        that was not reached stays set, unless the target is gone. */
    method StepOverCall(nextPc: nat) returns (out: Outcome)
      requires Ready() && pendingBp == 0
      modifies this`alive, this`lastSig, this`exitedCode, this`signaledSig, this`pendingBp, this`regs
      modifies this`pendingHwExec, proc, bps
      ensures
        var w := old(W(AtPrompt));
        Came(out, if Settable(w, nextPc) then Cleared(Run(Resumed(BpSet(w, nextPc, true))), nextPc)
                  else Run(Stepped(w, Running)))
    {
      var inserted := BpInsert(nextPc, true);
      if !inserted {
        out := SingleStep();
        return;
      }
      out := ContinueAndHandle();
      if !alive {
        ClearTemporary(nextPc);
      }
    }

    /** `dso`: step over a call by a temporary breakpoint behind it. Whether the instruction at rip could be read, and
        its length if it is a call, are the decoder's answers. */
    method CmdDso(readable: bool, callLen: nat) returns (out: Outcome)
      requires alive ==> Ready() && regs == proc.regs
      modifies this`alive, this`lastSig, this`exitedCode, this`signaledSig, this`pendingBp, this`regs
      modifies this`pendingHwExec, proc, bps
      ensures !old(alive) ==> out == Lost && !alive && W(Gone) == old(W(Gone))
      ensures old(alive) ==> Came(out, Do(old(W(AtPrompt)), StepOver(readable, callLen)))
    {
      if !alive {
        return Lost;
      }
      var _ := WpSetRfForExecResume();
      if !readable {
        return Back;
      }
      out := StepPast(callLen);
    }

    /** Off a lifted breakpoint, over a call, or a single step. */
    method StepPast(callLen: nat) returns (out: Outcome)
      requires Ready() && regs == proc.regs
      modifies this`alive, this`lastSig, this`exitedCode, this`signaledSig, this`pendingBp, this`regs
      modifies this`pendingHwExec, proc, bps
      ensures Came(out, PastCall(old(W(AtPrompt)), callLen))
    {
      if pendingBp != 0 {
        out := StepOff();
      } else if callLen == 0 {
        out := SingleStep();
      } else {
        out := StepOverCall((regs.rip + callLen) % TWO_64);
      }
    }

    // ---- the table commands ----

    /** `db <addr> ignore <n>`: the count is cut to the int it is kept in. */
    method CmdIgnore(addr: nat, n: nat) returns (ok: bool)
      requires Shape() && Sound()
      modifies proc`trace, bps
      ensures Sound() && W(AtPrompt) == Ignored(old(W(AtPrompt)), addr, ToInt(n))
      ensures forall i :: 0 <= i < bps.Length ==>
        bps[i] == if old(bps[i].used && bps[i].addr == addr) then old(bps[i]).(ignoreCount := ToInt(n)) else old(bps[i])
      ensures ok <==> addr in UsedAddrs(old(bps[..]))
    {
      NotUsed(bps[..], addr);
      var i := BpFind(addr);
      if i < 0 {
        return false;
      }
      Change(i, bps[i].(ignoreCount := ToInt(n)), SetIgnore(addr, ToInt(n)));
      ok := true;
    }

    /** `db <addr> reset`. */
    method CmdReset(addr: nat) returns (ok: bool)
      requires Shape() && Sound()
      modifies proc`trace, bps
      ensures Sound() && W(AtPrompt) == HitsReset(old(W(AtPrompt)), addr)
      ensures forall i :: 0 <= i < bps.Length ==>
        bps[i] == if old(bps[i].used && bps[i].addr == addr) then old(bps[i]).(hitCount := 0) else old(bps[i])
      ensures ok <==> addr in UsedAddrs(old(bps[..]))
    {
      NotUsed(bps[..], addr);
      var i := BpFind(addr);
      if i < 0 {
        return false;
      }
      Change(i, bps[i].(hitCount := 0), ResetHits(addr));
      ok := true;
    }

    /** `cond <addr> <reg> <op> <val>`, or `cond <addr>` to clear. */
    method CmdCond(addr: nat, c: Cond) returns (ok: bool)
      requires Shape() && Sound()
      modifies proc`trace, bps
      ensures Sound() && W(AtPrompt) == Conditioned(old(W(AtPrompt)), addr, c)
      ensures ok <==> addr in UsedAddrs(old(bps[..])) && (c.Cond? ==> c.reg in REG_NAMES)
      ensures forall i :: 0 <= i < bps.Length ==>
        bps[i] ==
          if ok && old(bps[i].used && bps[i].addr == addr) then old(bps[i]).(cond := StoredCond(c)) else old(bps[i])
    {
      NotUsed(bps[..], addr);
      var i := BpFind(addr);
      if i < 0 || (c.Cond? && c.reg !in REG_NAMES) {
        return false;
      }
      Change(i, bps[i].(cond := StoredCond(c)), SetCond(addr, StoredCond(c)));
      ok := true;
    }

    /** `handle <sig> ...`: a keyword that is absent leaves its flag alone; a number out of range is refused. */
    method CmdHandle(sig: nat, toStop: Option<bool>, toPass: Option<bool>) returns (ok: bool)
      requires Shape()
      modifies proc`trace, sigStop, sigProgram
      ensures ok <==> 0 < sig < NSIG
      ensures W(AtPrompt) == FlagsSet(old(W(AtPrompt)), sig, toStop, toPass)
      ensures ok ==> sigStop[..] == old(sigStop[..])[sig := if toStop.Some? then toStop.value else old(sigStop[sig])]
      ensures ok ==>
        sigProgram[..] == old(sigProgram[..])[sig := if toPass.Some? then toPass.value else old(sigProgram[sig])]
      ensures !ok ==> sigStop[..] == old(sigStop[..]) && sigProgram[..] == old(sigProgram[..])
    {
      if sig < 1 || sig >= NSIG {
        return false;
      }
      if toStop.Some? {
        sigStop[sig] := toStop.value;
      }
      if toPass.Some? {
        sigProgram[sig] := toPass.value;
      }
      proc.Log(Handle(sig, toStop, toPass));
      ok := true;
    }

    /** `dr <reg>=<val>`. */
    method CmdSetReg(r: Regs)
      modifies this`regs, proc`regs
      ensures proc.regs == r && regs == r
    {
      regs := r;
      proc.regs := r;
    }

    /** A command about breakpoints. */
    method EditBps(c: Command)
      requires Shape() && Sound() && !Runs(c) && !OnWatches(c) && !c.SetFlags? && !c.SetReg?
      modifies this`pendingBp, proc`mem, proc`trace, bps
      ensures Sound() && W(AtPrompt) == BpEdited(old(W(AtPrompt)), c)
    {
      match c {
        case Break(addr) => var _ := BpInsert(addr, false);
        case Delete(addr) => var _ := BpRemove(addr);
        case Ignore(addr, n) => var _ := CmdIgnore(addr, n);
        case Reset(addr) => var _ := CmdReset(addr);
        case Condition(addr, cond) => var _ := CmdCond(addr, cond);
      }
    }

    /** A command about watchpoints. */
    method EditWatches(c: Command)
      requires Shape() && alive && proc.live && HwOk() && ExecOk()
      requires OnWatches(c)
      modifies this`pendingHwExec, proc`trace, hwWps, dbg
      ensures HwOk() && ExecOk() && W(AtPrompt) == WatchEdited(old(W(AtPrompt)), c)
    {
      match c {
        case WatchAt(addr, len, rw) => var _ := WpSet(addr, len, rw);
        case Unwatch(slot) => var _ := WpRemoveSlot(slot);
        case UnwatchAddr(addr) => var _ := WpRemoveAddr(addr);
        case UnwatchAll => WpRemoveAll();
      }
    }

    /** A command that leaves the target stopped. */
    method EditTables(c: Command)
      requires Valid() && !Runs(c)
      modifies this`pendingBp, this`regs, this`pendingHwExec, proc`mem, proc`trace, proc`regs, bps, hwWps, dbg,
               sigStop, sigProgram
      ensures Valid() && W(AtPrompt) == Edited(old(W(AtPrompt)), c)
    {
      if OnWatches(c) {
        EditWatches(c);
      } else if c.SetFlags? {
        var _ := CmdHandle(c.sig, c.toStop, c.toPass);
      } else if c.SetReg? {
        CmdSetReg(c.regs);
      } else {
        EditBps(c);
      }
    }

    /** A command that lets the target run. */
    method Go(c: Command) returns (out: Outcome)
      requires Ready() && regs == proc.regs && Runs(c)
      modifies this`alive, this`lastSig, this`exitedCode, this`signaledSig, this`pendingBp, this`regs
      modifies this`pendingHwExec, proc, bps
      ensures Came(out, Do(old(W(AtPrompt)), c))
    {
      match c {
        case Continue => out := CmdDc();
        case StepInto => out := CmdDs();
        case StepOver(readable, callLen) => out := CmdDso(readable, callLen);
      }
    }

    /** The prompt: run commands until there are no more, the target is gone, or it never stops again. */
    method Repl(cmds: seq<Command>) returns (out: Outcome)
      requires Valid()
      modifies this`alive, this`lastSig, this`exitedCode, this`signaledSig, this`pendingBp, this`regs,
               this`pendingHwExec, proc, bps, hwWps, dbg, sigStop, sigProgram
      ensures HwOk() && Came(out, DoAll(old(W(AtPrompt)), cmds))
    {
      out := Back;
      ghost var goal := DoAll(W(AtPrompt), cmds);
      for k := 0 to |cmds|
        invariant out == Back && Valid() && goal == DoAll(W(AtPrompt), cmds[k..])
      {
        ghost var r := Do(W(AtPrompt), cmds[k]);
        assert goal == DoAll(r, cmds[k + 1..]);
        if Runs(cmds[k]) {
          out := Go(cmds[k]);
          if out != Back {
            return;
          }
        } else {
          EditTables(cmds[k]);
        }
      }
    }
  }

  /** A whole session, from the first stop of the target to the end of the command stream. */
  method DebugSession(proc: Inferior, cmds: seq<Command>) returns (s: Session, out: Outcome)
    requires proc.live && proc.mem == proc.orig && proc.trace == Start(proc.orig) && 0 !in proc.orig && proc.dr6 == {}
    modifies proc
    ensures s.proc == proc && s.Came(out, DoAll(old(Fresh(proc.orig, proc.regs, proc.stops)), cmds))
    ensures Lawful(proc.trace) && (out == Waiting ==> proc.stops == [])
    // with nothing pending every breakpoint is in memory; with all of them removed the memory is the target's own
    ensures out == Back && s.pendingBp == 0 ==> proc.mem == Overlay(proc.orig, UsedAddrs(s.bps[..]))
    ensures out == Back && UsedAddrs(s.bps[..]) == {} ==> proc.mem == proc.orig
  {
    SessionsAreLawful(proc.orig, proc.regs, proc.stops, cmds);
    s := new Session(proc);
    out := s.Repl(cmds);
    if out == Back {
      if s.pendingBp == 0 {
        AllPlanted(s.bps[..], proc.mem, proc.orig);
      }
      OverlayUndone(s.bps[..], s.pendingBp, proc.mem, proc.orig);
    }
  }
}
