/** The traced process as the debugger sees it through ptrace: memory read and written a word at a time,
    registers, a stream of stops. It keeps the record of what is done to it. */
module Ptrace {
  import opened Common
  import opened Registers
  import opened Trace
  import opened Words

  class Inferior {
    const orig: Memory  // the process's own bytes; only the debugger's pokes change them
    var live: bool
    var mem: Memory
    var regs: Regs
    var dr6: set<nat>  // hit bits, sticky until cleared
    var stops: seq<Stop>  // what waitpid will still report
    ghost var trace: Trace

    constructor (orig: Memory, regs: Regs, stops: seq<Stop>)
      ensures this.orig == orig && mem == orig && live && trace == Start(orig)
      ensures this.regs == regs && dr6 == {} && this.stops == stops
    {
      this.orig := orig;
      this.live := true;
      this.mem := orig;
      this.regs := regs;
      this.dr6 := {};
      this.stops := stops;
      this.trace := Start(orig);
    }

    ghost method Log(e: Entry)
      requires !e.Recv? && !e.Step? && !e.Cont?
      modifies this`trace
      ensures trace == After(old(trace), e)
    {
      trace := After(trace, e);
    }

    method PeekText(addr: nat) returns (word: Option<nat>)
      ensures word == if live && Mapped(mem, addr) then Some(Pack(WordAt(mem, addr))) else None
    {
      word := if live && Mapped(mem, addr) then Some(Pack(WordAt(mem, addr))) else None;
    }

    method PokeText(addr: nat, word: nat) returns (ok: bool)
      modifies this`mem
      ensures ok == (live && Mapped(old(mem), addr))
      ensures mem == if ok then Stored(old(mem), addr, Unpack(word, |WordAt(old(mem), addr)|)) else old(mem)
    {
      ok := live && Mapped(mem, addr);
      if ok {
        mem := Stored(mem, addr, Unpack(word, |WordAt(mem, addr)|));
      }
    }

    /** PTRACE_SINGLESTEP. */
    method SingleStep()
      requires live
      modifies this`trace
      ensures trace == After(old(trace), Step(mem))
    {
      trace := After(trace, Step(mem));
    }

    /** PTRACE_CONT with this signal. */
    method Continue(deliver: nat)
      requires live
      modifies this`trace
      ensures trace == After(old(trace), Cont(deliver, mem))
    {
      trace := After(trace, Cont(deliver, mem));
    }

    /** waitpid: None means the process never stops again and the call never returns. */
    method WaitPid() returns (stop: Option<Stop>)
      requires live
      modifies this`live, this`regs, this`dr6, this`stops, this`trace
      ensures stop == if old(stops) == [] then None else Some(old(stops)[0])
      ensures stop.None? ==> unchanged(this)
      ensures stop.Some? ==>
        && stops == old(stops)[1..] && trace == After(old(trace), Recv(stop.value)) && live == !Ended(stop.value)
        && regs == RegsAfter(old(regs), stop.value) && dr6 == old(dr6) + DebugHits(stop.value)
    {
      if stops == [] {
        return None;
      }
      var s := stops[0];
      stops := stops[1..];
      live := !Ended(s);
      regs := RegsAfter(regs, s);
      dr6 := dr6 + DebugHits(s);
      trace := After(trace, Recv(s));
      stop := Some(s);
    }
  }
}
