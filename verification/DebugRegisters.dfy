/** The x86 debug-control register DR7 as the live debugger packs it, and the decoder
    that reads the packed fields back (Intel SDM Vol. 3, section 17.2). */
module DebugRegisters {

  const HW_WP_SLOTS := 4

  /** One entry of the watchpoint table; its index is its debug-register number. */
  datatype Watch = Watch(addr: nat, len: int, rw: int, enabled: bool)

  const NO_WATCH := Watch(0, 0, 0, false)
  const NO_WATCHES := [NO_WATCH, NO_WATCH, NO_WATCH, NO_WATCH]

  predicate ValidMode(len: int, rw: int) {
    && len in {1, 2, 4, 8}
    && rw in {0, 1, 3}
    && (rw == 0 ==> len == 1)
  }

  predicate Aligned(addr: nat, len: int) {
    len > 1 ==> addr % len == 0
  }

  predicate ValidWatch(w: Watch) {
    w.enabled ==> ValidMode(w.len, w.rw) && Aligned(w.addr, w.len)
  }

  /** A watchpoint took a slot that was free; the others stay. */
  ghost predicate WatchAdded(before: seq<Watch>, after: seq<Watch>, w: Watch) {
    exists i :: 0 <= i < |before| && !before[i].enabled && after == before[i := w]
  }

  /** The first enabled watchpoint at this address is off; the others stay. */
  ghost predicate WatchDropped(before: seq<Watch>, after: seq<Watch>, addr: nat) {
    exists i :: 0 <= i < |before| && before[i].enabled && before[i].addr == addr
      && after == before[i := before[i].(enabled := false)]
      && forall k :: 0 <= k < i && before[k].enabled ==> before[k].addr != addr
  }

  /** The low two bits of the mode. */
  function RwBits(rw: int): bv32 {
    var low := rw % 4;
    if low == 0 then 0 else if low == 1 then 1 else if low == 2 then 2 else 3
  }

  function LenCode(len: int): bv32 {
    match len
    case 1 => 0
    case 2 => 1
    case 8 => 2
    case 4 => 3
    case _ => 0
  }

  /** A slot's local-enable, R/W and LEN fields. */
  datatype Fields = Fields(e: bv32, r: bv32, l: bv32)

  function FieldsOf(w: Watch): (f: Fields)
    ensures f.e <= 1 && f.r <= 3 && f.l <= 3
  {
    if w.enabled then Fields(1, RwBits(w.rw), LenCode(w.len)) else Fields(0, 0, 0)
  }

  /** A slot's fields at the manual's bit positions: 2i, 16 + 4i and 18 + 4i. */
  function Placed(i: nat, f: Fields): bv32
    requires i < HW_WP_SLOTS
  {
    match i
    case 0 => f.e | (f.r << 16) | (f.l << 18)
    case 1 => (f.e << 2) | (f.r << 20) | (f.l << 22)
    case 2 => (f.e << 4) | (f.r << 24) | (f.l << 26)
    case 3 => (f.e << 6) | (f.r << 28) | (f.l << 30)
  }

  /** DR7 for the first `n` slots: LE and GE, and every slot's fields. */
  function EncodeFirst(ws: seq<Watch>, n: nat): bv32
    requires n <= |ws| <= HW_WP_SLOTS
  {
    if n == 0 then 0x300 else EncodeFirst(ws, n - 1) | Placed(n - 1, FieldsOf(ws[n - 1]))
  }

  function Encode(ws: seq<Watch>): bv32
    requires |ws| == HW_WP_SLOTS
  {
    EncodeFirst(ws, |ws|)
  }

  /** What the processor reads from slot `i`'s bit positions. */
  function Read(dr7: bv32, i: nat): Fields
    requires i < HW_WP_SLOTS
  {
    match i
    case 0 => Fields(dr7 & 1, (dr7 >> 16) & 3, (dr7 >> 18) & 3)
    case 1 => Fields((dr7 >> 2) & 1, (dr7 >> 20) & 3, (dr7 >> 22) & 3)
    case 2 => Fields((dr7 >> 4) & 1, (dr7 >> 24) & 3, (dr7 >> 26) & 3)
    case 3 => Fields((dr7 >> 6) & 1, (dr7 >> 28) & 3, (dr7 >> 30) & 3)
  }

  /** What the processor does for a slot: nothing, or trap on this mode and length. */
  datatype Armed = Off | On(rw: int, len: int)

  function Meaning(f: Fields): Armed {
    if f.e == 0 then Off
    else On(if f.r == 0 then 0 else if f.r == 1 then 1 else if f.r == 2 then 2 else 3,
            if f.l == 0 then 1 else if f.l == 1 then 2 else if f.l == 2 then 8 else 4)
  }

  function Decode(dr7: bv32, i: nat): Armed
    requires i < HW_WP_SLOTS
  {
    Meaning(Read(dr7, i))
  }

  lemma FieldsDoNotOverlap(f0: Fields, f1: Fields, f2: Fields, f3: Fields, dr7: bv32)
    requires f0.e <= 1 && f0.r <= 3 && f0.l <= 3 && f1.e <= 1 && f1.r <= 3 && f1.l <= 3
    requires f2.e <= 1 && f2.r <= 3 && f2.l <= 3 && f3.e <= 1 && f3.r <= 3 && f3.l <= 3
    requires dr7 == 0x300 | Placed(0, f0) | Placed(1, f1) | Placed(2, f2) | Placed(3, f3)
    ensures Read(dr7, 0) == f0 && Read(dr7, 1) == f1 && Read(dr7, 2) == f2 && Read(dr7, 3) == f3
    ensures dr7 & 0xFFAA == 0x300
  {
  }

  lemma EncodeTwoMore(ws: seq<Watch>, n: nat)
    requires n + 2 <= |ws| <= HW_WP_SLOTS
    ensures EncodeFirst(ws, n + 2) ==
      EncodeFirst(ws, n) | Placed(n, FieldsOf(ws[n])) | Placed(n + 1, FieldsOf(ws[n + 1]))
  {
    assert EncodeFirst(ws, n + 1) == EncodeFirst(ws, n) | Placed(n, FieldsOf(ws[n]));
  }

  lemma ReadEncode(ws: seq<Watch>, i: nat)
    requires |ws| == HW_WP_SLOTS && i < HW_WP_SLOTS
    ensures Read(Encode(ws), i) == FieldsOf(ws[i])
    ensures Encode(ws) & 0xFFAA == 0x300
  {
    EncodeTwoMore(ws, 0);
    EncodeTwoMore(ws, 2);
    FieldsDoNotOverlap(FieldsOf(ws[0]), FieldsOf(ws[1]), FieldsOf(ws[2]), FieldsOf(ws[3]), Encode(ws));
  }

  lemma EnableIsBit(dr7: bv32, i: nat)
    requires i < HW_WP_SLOTS
    ensures Read(dr7, i).e == (dr7 >> (2 * i)) & 1
  {
    if i == 0 {} else if i == 1 {} else if i == 2 {} else {}
  }

  lemma ModeIsBits(dr7: bv32, i: nat)
    requires i < HW_WP_SLOTS
    ensures Read(dr7, i).r == (dr7 >> (16 + 4 * i)) & 3
  {
    if i == 0 {} else if i == 1 {} else if i == 2 {} else {}
  }

  lemma LengthIsBits(dr7: bv32, i: nat)
    requires i < HW_WP_SLOTS
    ensures Read(dr7, i).l == (dr7 >> (18 + 4 * i)) & 3
  {
    if i == 0 {} else if i == 1 {} else if i == 2 {} else {}
  }

  /** What is read from a slot are the manual's bits: the enable bit L at 2i, R/W at 16 + 4i, LEN at 18 + 4i. */
  lemma ReadIsBits(dr7: bv32, i: nat)
    requires i < HW_WP_SLOTS
    ensures Read(dr7, i).e == (dr7 >> (2 * i)) & 1
    ensures Read(dr7, i).r == (dr7 >> (16 + 4 * i)) & 3
    ensures Read(dr7, i).l == (dr7 >> (18 + 4 * i)) & 3
  {
    EnableIsBit(dr7, i);
    ModeIsBits(dr7, i);
    LengthIsBits(dr7, i);
  }

  /** The manual's codes: R/W 0 is execution, 1 a write, 3 any access; LEN 0, 1, 2, 3 are 1, 2, 8 and 4 bytes. */
  lemma ManualCodes()
    ensures forall r, l :: Meaning(Fields(0, r, l)) == Off
    ensures Meaning(Fields(1, 0, 0)) == On(0, 1)
    ensures Meaning(Fields(1, 1, 0)) == On(1, 1) && Meaning(Fields(1, 1, 1)) == On(1, 2)
    ensures Meaning(Fields(1, 1, 2)) == On(1, 8) && Meaning(Fields(1, 1, 3)) == On(1, 4)
    ensures Meaning(Fields(1, 3, 0)) == On(3, 1) && Meaning(Fields(1, 3, 1)) == On(3, 2)
    ensures Meaning(Fields(1, 3, 2)) == On(3, 8) && Meaning(Fields(1, 3, 3)) == On(3, 4)
  {
  }

  /** The processor traps on this access: some slot has the address and is armed for the length and mode. */
  predicate TrapsOn(addrs: seq<nat>, dr7: bv32, addr: nat, len: int, rw: int)
    requires |addrs| == HW_WP_SLOTS
  {
    exists i :: 0 <= i < HW_WP_SLOTS && addrs[i] == addr && Decode(dr7, i) == On(rw, len)
  }

  /** With the table's addresses in DR0-DR3 and its encoding in DR7, the processor traps on exactly what the table
      watches. */
  lemma TrapsOnTable(ws: seq<Watch>, addrs: seq<nat>, dr7: bv32, addr: nat, len: int, rw: int)
    requires |ws| == HW_WP_SLOTS == |addrs| && forall i :: 0 <= i < |ws| ==> ValidWatch(ws[i])
    requires forall i :: 0 <= i < |ws| ==> addrs[i] == if ws[i].enabled then ws[i].addr else 0
    requires dr7 == Encode(ws) || (dr7 == 0 && forall i :: 0 <= i < |ws| ==> !ws[i].enabled)
    ensures TrapsOn(addrs, dr7, addr, len, rw) <==> Watch(addr, len, rw, true) in ws
  {
    forall i | 0 <= i < |ws| ensures Decode(dr7, i) == if ws[i].enabled then On(ws[i].rw, ws[i].len) else Off {
      if dr7 == 0 && !ws[i].enabled {
        NothingArmed(i);
      } else {
        DecodeEncode(ws, i);
      }
    }
    if Watch(addr, len, rw, true) in ws {
      var i :| 0 <= i < |ws| && ws[i] == Watch(addr, len, rw, true);
      assert addrs[i] == addr;
    }
  }

  lemma NothingArmed(i: nat)
    requires i < HW_WP_SLOTS
    ensures Decode(0, i) == Off
  {
    if i == 0 {} else if i == 1 {} else if i == 2 {} else {}
  }

  lemma MeaningOfFields(w: Watch)
    requires ValidWatch(w)
    ensures Meaning(FieldsOf(w)) == if w.enabled then On(w.rw, w.len) else Off
  {
  }

  /** Decoding DR7 slot by slot gives back exactly the table: which slots are armed, and
      the mode and length of each armed one. The global-enable and reserved bits stay 0. */
  lemma DecodeEncode(ws: seq<Watch>, i: nat)
    requires |ws| == HW_WP_SLOTS && i < HW_WP_SLOTS && ValidWatch(ws[i])
    ensures Decode(Encode(ws), i) == if ws[i].enabled then On(ws[i].rw, ws[i].len) else Off
    ensures Encode(ws) & 0xFFAA == 0x300
  {
    ReadEncode(ws, i);
    MeaningOfFields(ws[i]);
  }

  /** An armed slot's bits: its enable bit by 2i, its mode by 16 + 4i, its length code by 18 + 4i. */
  method SlotBits(i: nat, mode: bv32, code: bv32) returns (e: bv32, r: bv32, l: bv32)
    requires i < HW_WP_SLOTS
    ensures e | r | l == Placed(i, Fields(1, mode, code))
  {
    e := 1 << (2 * i);
    r := mode << (16 + 4 * i);
    l := code << (18 + 4 * i);
    if i == 0 {} else if i == 1 {} else if i == 2 {} else {}
  }

  lemma OrInTurn(dr7: bv32, a: bv32, b: bv32, c: bv32)
    ensures dr7 | a | b | c == dr7 | (a | b | c)
  {
  }

  lemma NoBits(dr7: bv32, i: nat)
    requires i < HW_WP_SLOTS
    ensures dr7 | Placed(i, Fields(0, 0, 0)) == dr7
  {
  }

  /** One slot's fields; an unarmed slot adds no bits. */
  method AddSlot(dr7: bv32, i: nat, w: Watch) returns (word: bv32)
    requires i < HW_WP_SLOTS
    ensures word == dr7 | Placed(i, FieldsOf(w))
  {
    word := dr7;
    if w.enabled {
      var e, r, l := SlotBits(i, RwBits(w.rw), LenCode(w.len));
      OrInTurn(word, e, r, l);
      word := word | e;
      word := word | r;
      word := word | l;
    } else {
      NoBits(dr7, i);
    }
  }

  method ComputeDr7(ws: seq<Watch>) returns (dr7: bv32)
    requires |ws| == HW_WP_SLOTS
    ensures dr7 == Encode(ws)
  {
    dr7 := (1 << 8) | (1 << 9);
    for i := 0 to HW_WP_SLOTS
      invariant dr7 == EncodeFirst(ws, i)
    {
      dr7 := AddSlot(dr7, i, ws[i]);
    }
  }
}
