/** The target's registers, and breakpoint conditions over them. */
module Registers {
  import opened Common

  const RF := 0x1_0000

  /** Register file: rip and eflags apart, the rest by name. */
  datatype Regs = Regs(rip: nat, eflags: nat, gp: map<string, nat>)

  const REG_NAMES: set<string> := {
    "rax", "rbx", "rcx", "rdx", "rsi", "rdi", "rbp", "rsp", "r8", "r9", "r10", "r11",
    "r12", "r13", "r14", "r15", "rip", "eflags", "orig_rax", "cs", "ss", "fs_base", "gs_base"
  }

  function RegLookup(r: Regs, name: string): Option<nat> {
    if name !in REG_NAMES then None
    else if name == "rip" then Some(r.rip)
    else if name == "eflags" then Some(r.eflags)
    else Some(if name in r.gp then r.gp[name] else 0)
  }

  function WithRf(eflags: nat): nat {
    if (eflags / RF) % 2 == 1 then eflags else eflags + RF
  }

  /** The resume flag is bit 16; the other bits stay. */
  lemma WithRfSetsBit16(eflags: nat)
    ensures WithRf(eflags) / 0x1_0000 % 2 == 1
    ensures WithRf(eflags) % 0x1_0000 == eflags % 0x1_0000 && WithRf(eflags) / 0x2_0000 == eflags / 0x2_0000
  {
  }

  /** rip moved back onto the INT3 it has just passed. */
  function Rewound(r: Regs): Regs {
    r.(rip := (r.rip + TWO_64 - 1) % TWO_64)
  }

  // ---- conditions ----

  datatype Op = Eq | Ne | Lt | Le | Gt | Ge

  datatype Cond = NoCond | Cond(reg: string, op: Op, val: nat)

  function Compare(op: Op, x: nat, y: nat): bool {
    match op
    case Eq => x == y
    case Ne => x != y
    case Lt => x < y
    case Le => x <= y
    case Gt => x > y
    case Ge => x >= y
  }

  /** The operators by the sign of the difference. */
  lemma OperatorsMean(x: nat, y: nat)
    ensures Compare(Eq, x, y) <==> x - y == 0
    ensures Compare(Ne, x, y) <==> x - y != 0
    ensures Compare(Lt, x, y) <==> y - x > 0
    ensures Compare(Le, x, y) <==> y - x >= 0
    ensures Compare(Gt, x, y) <==> x - y > 0
    ensures Compare(Ge, x, y) <==> x - y >= 0
  {
  }

  /** A condition on rip, on eflags or on a general register tests that register. */
  lemma ConditionTestsItsRegister(regs: Regs, reg: string, op: Op, val: nat)
    requires reg in REG_NAMES
    ensures CondTrue(Cond("rip", op, val), regs) <==> Compare(op, regs.rip, val)
    ensures CondTrue(Cond("eflags", op, val), regs) <==> Compare(op, regs.eflags, val)
    ensures reg != "rip" && reg != "eflags" && reg in regs.gp ==>
      (CondTrue(Cond(reg, op, val), regs) <==> Compare(op, regs.gp[reg], val))
  {
  }

  /** A condition on an unknown register counts as true, so that the user notices. */
  function CondTrue(c: Cond, regs: Regs): bool {
    if c.NoCond? then true
    else match RegLookup(regs, c.reg)
      case None => true
      case Some(v) => Compare(c.op, v, c.val)
  }

  /** The table keeps a register name in eight bytes, the last of them the terminator. */
  function StoredReg(reg: string): string {
    if |reg| > 7 then reg[..7] else reg
  }

  /** A condition as the table keeps it. */
  function StoredCond(c: Cond): Cond {
    if c.Cond? then c.(reg := StoredReg(c.reg)) else NoCond
  }

  /** A condition the user gave is the condition the debugger tests exactly when the
      register's name fits: "orig_rax" is accepted, cut short, and then always true. */
  lemma ConditionKeptIffNameFits(reg: string)
    requires reg in REG_NAMES
    ensures |reg| <= 7 <==>
      forall op, val, regs :: CondTrue(Cond(StoredReg(reg), op, val), regs) == CondTrue(Cond(reg, op, val), regs)
  {
    if |reg| > 7 {
      assert reg == "orig_rax";
      assert StoredReg(reg) == "orig_ra";
      var regs := Regs(0, 0, map["orig_rax" := 0]);
      assert |StoredReg(reg)| == 7 && StoredReg(reg)[5] == 'r' && StoredReg(reg)[6] == 'a';
      assert StoredReg(reg) !in REG_NAMES;
      assert CondTrue(Cond(StoredReg(reg), Ne, 0), regs) != CondTrue(Cond(reg, Ne, 0), regs);
    }
  }
}
