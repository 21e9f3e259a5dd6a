/** The breakpoint table and its overlay on the target's memory, as values. */
module Breakpoints {
  import opened Common
  import opened Registers
  import opened Words

  const MAX_BPS := 64

  datatype Bp = Bp(used: bool, inserted: bool, temporary: bool, addr: nat, shadow: byte,
                   hitCount: nat, ignoreCount: int, cond: Cond)

  const FREE := Bp(false, false, false, 0, 0, 0, 0, NoCond)

  // ---- looking up slots ----

  /** The first used slot with this address; the table's length if there is none. */
  function FindBp(bps: seq<Bp>, addr: nat): (i: nat)
    ensures i <= |bps|
    ensures forall k :: 0 <= k < i ==> !(bps[k].used && bps[k].addr == addr)
    ensures i < |bps| ==> bps[i].used && bps[i].addr == addr
  {
    if bps == [] || (bps[0].used && bps[0].addr == addr) then 0 else 1 + FindBp(bps[1..], addr)
  }

  /** The first free slot; the table's length if there is none. */
  function FreeBp(bps: seq<Bp>): (i: nat)
    ensures i <= |bps|
    ensures forall k :: 0 <= k < i ==> bps[k].used
    ensures i < |bps| ==> !bps[i].used
  {
    if bps == [] || !bps[0].used then 0 else 1 + FreeBp(bps[1..])
  }

  ghost predicate HasFree(bps: seq<Bp>) {
    exists i :: 0 <= i < |bps| && !bps[i].used
  }

  /** One slot that was free holds this breakpoint, with the original byte and nothing counted; the others stay. */
  ghost predicate BpAdded(before: seq<Bp>, after: seq<Bp>, addr: nat, temporary: bool, orig: Memory)
    requires addr in orig
  {
    exists i :: 0 <= i < |before| && !before[i].used &&
      after == before[i := Bp(true, true, temporary, addr, orig[addr], 0, 0, NoCond)]
  }

  // ---- the overlay ----

  function UsedAddrs(bps: seq<Bp>): set<nat> {
    set i | 0 <= i < |bps| && bps[i].used :: bps[i].addr
  }

  function PlantedAddrs(bps: seq<Bp>): set<nat> {
    set i | 0 <= i < |bps| && bps[i].used && bps[i].inserted :: bps[i].addr
  }

  /** The table by itself: addresses are distinct and mapped, shadows are the original bytes, and the one used
      slot that may be out of memory is the one `pending` names. */
  ghost predicate TableOk(bps: seq<Bp>, pending: nat, orig: Memory) {
    && (forall i, j :: 0 <= i < j < |bps| && bps[i].used && bps[j].used ==> bps[i].addr != bps[j].addr)
    && (forall i :: 0 <= i < |bps| && bps[i].used ==>
          Mapped(orig, bps[i].addr) && bps[i].addr in orig && bps[i].shadow == orig[bps[i].addr])
    && (forall i :: 0 <= i < |bps| && bps[i].used ==> (!bps[i].inserted <==> bps[i].addr == pending))
    && (pending != 0 ==> pending in UsedAddrs(bps))
    && 0 !in orig
  }

  /** The invariant tying the table to the target's memory, which differs from the original by the planted
      INT3s only. */
  ghost predicate Consistent(bps: seq<Bp>, pending: nat, mem: Memory, orig: Memory) {
    TableOk(bps, pending, orig) && mem == Overlay(orig, PlantedAddrs(bps))
  }

  lemma NotUsed(bps: seq<Bp>, addr: nat)
    ensures FindBp(bps, addr) == |bps| <==> addr !in UsedAddrs(bps)
  {
  }

  lemma MappedInOverlay(bps: seq<Bp>, pending: nat, mem: Memory, orig: Memory, addr: nat)
    requires Consistent(bps, pending, mem, orig)
    ensures Mapped(mem, addr) <==> Mapped(orig, addr)
    ensures addr !in UsedAddrs(bps) && addr in mem ==> mem[addr] == orig[addr]
  {
    assert mem.Keys == orig.Keys;
  }

  lemma Plant(bps: seq<Bp>, pending: nat, mem: Memory, orig: Memory, i: nat, b: Bp)
    requires Consistent(bps, pending, mem, orig)
    requires i < |bps| && !bps[i].used
    requires b.used && b.inserted && b.addr !in UsedAddrs(bps) && Mapped(orig, b.addr) && b.addr in orig
    requires b.shadow == orig[b.addr]
    ensures Consistent(bps[i := b], pending, mem[b.addr := INT3], orig)
    ensures UsedAddrs(bps[i := b]) == UsedAddrs(bps) + {b.addr}
  {
    var after := bps[i := b];
    assert after[i] == b;
    assert forall k :: 0 <= k < |bps| && k != i ==> after[k] == bps[k];
    assert PlantedAddrs(after) == PlantedAddrs(bps) + {b.addr};
    assert UsedAddrs(after) == UsedAddrs(bps) + {b.addr};
  }

  /** A hit lifts the INT3 of its slot. */
  lemma Lift(bps: seq<Bp>, mem: Memory, orig: Memory, i: nat, b: Bp)
    requires Consistent(bps, 0, mem, orig)
    requires i < |bps| && bps[i].used
    requires b.used && !b.inserted && b.addr == bps[i].addr && b.shadow == bps[i].shadow
    ensures Consistent(bps[i := b], b.addr, mem[b.addr := b.shadow], orig)
  {
    var after := bps[i := b];
    assert after[i] == b;
    assert forall k :: 0 <= k < |bps| && k != i ==> after[k] == bps[k];
    assert bps[i].inserted;
    assert PlantedAddrs(after) == PlantedAddrs(bps) - {b.addr};
    assert UsedAddrs(after) == UsedAddrs(bps);
  }

  /** Changing only the counters or the condition of a slot keeps the invariant. */
  lemma Recount(bps: seq<Bp>, pending: nat, mem: Memory, orig: Memory, i: nat, b: Bp)
    requires Consistent(bps, pending, mem, orig)
    requires i < |bps| && b.used == bps[i].used && b.inserted == bps[i].inserted
    requires b.addr == bps[i].addr && b.shadow == bps[i].shadow
    ensures Consistent(bps[i := b], pending, mem, orig)
    ensures UsedAddrs(bps[i := b]) == UsedAddrs(bps)
  {
    var after := bps[i := b];
    assert after[i] == b;
    assert forall k :: 0 <= k < |bps| && k != i ==> after[k] == bps[k];
    assert PlantedAddrs(after) == PlantedAddrs(bps);
    assert UsedAddrs(after) == UsedAddrs(bps);
  }

  /** Stepping off the lifted breakpoint puts its INT3 back. */
  lemma Replant(bps: seq<Bp>, pending: nat, mem: Memory, orig: Memory, i: nat)
    requires Consistent(bps, pending, mem, orig)
    requires i < |bps| && bps[i].used && bps[i].addr == pending
    ensures Consistent(bps[i := bps[i].(inserted := true)], 0, mem[pending := INT3], orig)
    ensures UsedAddrs(bps[i := bps[i].(inserted := true)]) == UsedAddrs(bps)
  {
    var b := bps[i].(inserted := true);
    var after := bps[i := b];
    assert after[i] == b;
    assert forall k :: 0 <= k < |bps| && k != i ==> after[k] == bps[k];
    assert PlantedAddrs(after) == PlantedAddrs(bps) + {pending};
  }

  /** Removing a slot restores its byte if it was planted, and clears `pending` if it was lifted. */
  lemma Remove(bps: seq<Bp>, pending: nat, mem: Memory, orig: Memory, i: nat, b: Bp)
    requires Consistent(bps, pending, mem, orig)
    requires i < |bps| && bps[i].used && !b.used
    ensures Consistent(bps[i := b], if pending == bps[i].addr then 0 else pending,
                       if bps[i].inserted then mem[bps[i].addr := bps[i].shadow] else mem, orig)
    ensures UsedAddrs(bps[i := b]) == UsedAddrs(bps) - {bps[i].addr}
  {
    var after := bps[i := b];
    assert after[i] == b;
    assert forall k :: 0 <= k < |bps| && k != i ==> after[k] == bps[k];
    assert PlantedAddrs(after) == PlantedAddrs(bps) - {bps[i].addr};
    assert UsedAddrs(after) == UsedAddrs(bps) - {bps[i].addr};
  }

  /** With no slot out of memory, every used slot is planted. */
  lemma AllPlanted(bps: seq<Bp>, mem: Memory, orig: Memory)
    requires Consistent(bps, 0, mem, orig)
    ensures mem == Overlay(orig, UsedAddrs(bps))
  {
    assert PlantedAddrs(bps) == UsedAddrs(bps);
  }

  /** In every consistent state the target's bytes are its own except at planted slots, and
      removing the last breakpoint leaves exactly the original memory. */
  lemma OverlayUndone(bps: seq<Bp>, pending: nat, mem: Memory, orig: Memory)
    requires Consistent(bps, pending, mem, orig)
    ensures forall a | a in orig :: mem[a] != orig[a] ==> mem[a] == INT3 && a in PlantedAddrs(bps)
    ensures UsedAddrs(bps) == {} ==> mem == orig && pending == 0
  {
    assert PlantedAddrs(bps) <= UsedAddrs(bps);
  }
}
