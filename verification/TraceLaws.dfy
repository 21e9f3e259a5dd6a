/** What a lawful record says about a whole debugging run. */
module TraceLaws {
  import opened Registers
  import opened Trace
  import opened Words

  lemma {:induction false} PrefixLawful(t: Trace, u: Trace)
    requires Lawful(t) && Extends(u, t)
    ensures Lawful(u) && Orig(u) == Orig(t)
  {
    if t != u {
      PrefixLawful(t.before, u);
    }
  }

  /** Whenever the target is let run, every breakpoint that is set is in place, the rest of memory is its own, and a
      delivered signal is one the user lets pass. */
  lemma {:induction false} EveryResumeIsArmed(t: Trace, u: Trace, e: Entry)
    requires Lawful(t) && Extends(After(u, e), t) && e.Cont?
    ensures Pending(u) == 0 && e.mem == Overlay(Orig(t), KnownBps(u).Keys)
    ensures e.deliver != 0 ==> RealSignal(e.deliver) && PassFlag(u, e.deliver) && e.deliver == Undelivered(u)
  {
    PrefixLawful(t, After(u, e));
  }

  // ---- hits and ignore counts ----

  /** A trap of the breakpoint at `a`: rip is just behind it, and neither a single step nor a watchpoint explains the
      stop. */
  predicate DueTrap(t: Trace, stop: Stop, a: nat) {
    && IsTrap(stop) && Pending(t) == 0 && Rewound(stop.regs).rip == a
    && a in KnownBps(t) && !KnownBps(t)[a].temporary
    && !stop.traceTrap && !WatchHit(Watches(t), Dr6(t) + stop.debugHits)
  }

  predicate TrueTrap(t: Trace, stop: Stop, a: nat) {
    DueTrap(t, stop, a) && CondTrue(KnownBps(t)[a].cond, Rewound(stop.regs))
  }

  /** The traps reported at `a` since the breakpoint was set or its hit count reset. */
  function Traps(t: Trace, a: nat): nat {
    match t
    case Start(_) => 0
    case After(before, e) =>
      match e
      case Insert(b, _) => if a == b then 0 else Traps(before, a)
      case ResetHits(b) => if a == b then 0 else Traps(before, a)
      case Recv(stop) => Traps(before, a) + if DueTrap(before, stop, a) then 1 else 0
      case _ => Traps(before, a)
  }

  /** The ignore count last given for `a`. */
  function Budget(t: Trace, a: nat): int {
    match t
    case Start(_) => 0
    case After(before, e) =>
      match e
      case Insert(b, _) => if a == b then 0 else Budget(before, a)
      case SetIgnore(b, n) => if a == b then n else Budget(before, a)
      case _ => Budget(before, a)
  }

  /** The traps at `a` with a true condition since that count was given. */
  function TrueTraps(t: Trace, a: nat): nat {
    match t
    case Start(_) => 0
    case After(before, e) =>
      match e
      case Insert(b, _) => if a == b then 0 else TrueTraps(before, a)
      case SetIgnore(b, _) => if a == b then 0 else TrueTraps(before, a)
      case Recv(stop) => TrueTraps(before, a) + if TrueTrap(before, stop, a) then 1 else 0
      case _ => TrueTraps(before, a)
  }

  /** The record ends with a trap at `a` that is not answered yet. */
  predicate Unanswered(t: Trace, a: nat) {
    t.After? && t.last.Recv? && DueTrap(t.before, t.last.stop, a)
  }

  /** A trap is answered by its hit, and there is no hit without a trap. */
  lemma HitsAnswerTraps(t: Trace, a: nat)
    requires Lawful(t) && t.After?
    ensures Unanswered(t.before, a) ==>
      var c := CondTrue(KnownBps(t.before)[a].cond, Rewound(t.before.last.stop.regs));
      t.last == Hit(a, c, c && KnownBps(t.before)[a].ignore <= 0)
    ensures t.last.Hit? && t.last.addr == a ==> Unanswered(t.before, a)
  {
  }

  /** Every trap of a breakpoint is counted, once, over the whole run. */
  lemma {:induction false} HitCountIsTraps(t: Trace, a: nat)
    requires Lawful(t) && a in KnownBps(t)
    ensures Traps(t, a) == KnownBps(t)[a].hits + if Unanswered(t, a) then 1 else 0
  {
    if t.After? && a in KnownBps(t.before) {
      HitCountIsTraps(t.before, a);
      HitsAnswerTraps(t, a);
    }
  }

  function Less(n: int, taken: nat): int {
    if n <= 0 then n else if taken >= n then 0 else n - taken
  }

  /** What is left of an ignore count is the count given less the true traps since. */
  lemma {:induction false} IgnoreLeftIsRemainder(t: Trace, a: nat)
    requires Lawful(t) && a in KnownBps(t)
    ensures
      var open := if Unanswered(t, a) && TrueTrap(t.before, t.last.stop, a) then 1 else 0;
      TrueTraps(t, a) >= open && KnownBps(t)[a].ignore == Less(Budget(t, a), TrueTraps(t, a) - open)
  {
    if t.After? && a in KnownBps(t.before) {
      IgnoreLeftIsRemainder(t.before, a);
      HitsAnswerTraps(t, a);
    }
  }

  /** With ignore count N the debugger stops at a trap exactly when its condition holds and N true traps came before
      it: at the (N+1)-th and at no earlier one. At the others the target is stepped off and goes on. */
  lemma {:induction false} StopsAtFirstUnignoredTrap(run: Trace, t: Trace, stop: Stop, a: nat, e: Entry, next: Entry)
    requires Lawful(run) && Extends(After(After(After(t, Recv(stop)), e), next), run) && DueTrap(t, stop, a)
    ensures next == Prompt <==> TrueTrap(t, stop, a) && TrueTraps(t, a) >= Budget(t, a)
    ensures next != Prompt ==> next.Step?
  {
    PrefixLawful(run, After(After(After(t, Recv(stop)), e), next));
    var u := After(t, Recv(stop));
    assert Unanswered(u, a);
    HitsAnswerTraps(After(u, e), a);
    IgnoreLeftIsRemainder(u, a);
  }

  /** The exact exception: a trap with rip behind a breakpoint is its hit unless the stop is marked as a single step's
      or an enabled watchpoint's bit is set, be it a bit left over from an earlier stop. */
  lemma {:induction false} TrapCountedIff(run: Trace, t: Trace, stop: Stop, a: nat, e: Entry)
    requires Lawful(run) && Extends(After(After(t, Recv(stop)), e), run)
    requires IsTrap(stop) && Pending(t) == 0 && Rewound(stop.regs).rip == a
    requires a in KnownBps(t) && !KnownBps(t)[a].temporary
    ensures
      var m := KnownBps(After(After(t, Recv(stop)), e));
      if stop.traceTrap || WatchHit(Watches(t), Dr6(t) + stop.debugHits) then e == Prompt && m == KnownBps(t)
      else a in m && m[a].hits == KnownBps(t)[a].hits + 1
  {
    PrefixLawful(run, After(After(t, Recv(stop)), e));
  }

  // ---- signals ----

  /** What becomes of a signal that is reported: its flags, as last set, decide whether the user sees it and, if not,
      whether the target gets it at once. */
  lemma {:induction false} FlagsDecide(run: Trace, t: Trace, stop: Stop, e: Entry)
    requires Lawful(run) && Extends(After(After(t, Recv(stop)), e), run)
    requires stop.Stopped? && RealSignal(stop.sig) && Pending(t) == 0
    ensures e == Prompt <==> StopFlag(t, stop.sig)
    ensures e != Prompt ==> e.Cont? && e.deliver == if PassFlag(t, stop.sig) then stop.sig else 0
  {
    PrefixLawful(run, After(After(t, Recv(stop)), e));
  }

  function Received(t: Trace, s: nat): nat {
    match t
    case Start(_) => 0
    case After(before, e) =>
      Received(before, s) + if e.Recv? && e.stop.Stopped? && e.stop.sig == s then 1 else 0
  }

  function Delivered(t: Trace, s: nat): nat {
    match t
    case Start(_) => 0
    case After(before, e) => Delivered(before, s) + if e.Cont? && e.deliver == s then 1 else 0
  }

  /** The target was resumed without the signal because its pass flag was off. */
  function Withheld(t: Trace, s: nat): nat {
    match t
    case Start(_) => 0
    case After(before, e) =>
      Withheld(before, s) + if e.Cont? && Undelivered(before) == s && !PassFlag(before, s) then 1 else 0
  }

  /** The user single-stepped on from the signal. */
  function SteppedPast(t: Trace, s: nat): nat {
    match t
    case Start(_) => 0
    case After(before, e) => SteppedPast(before, s) + if e.Step? && Undelivered(before) == s then 1 else 0
  }

  /** The signal came as the end of a step off a breakpoint, which is dropped. */
  function Dropped(t: Trace, s: nat): nat {
    match t
    case Start(_) => 0
    case After(before, e) =>
      Dropped(before, s)
      + if e.Recv? && e.stop.Stopped? && e.stop.sig == s && Pending(before) != 0 then 1 else 0
  }

  /** Every signal the target ever reported was delivered, withheld on the user's word, stepped past, dropped at the
      end of a step off a breakpoint, or is still waiting for the next resume. */
  lemma {:induction false} SignalsConserved(t: Trace, s: nat)
    requires Lawful(t) && RealSignal(s)
    ensures Received(t, s) ==
      Delivered(t, s) + Withheld(t, s) + SteppedPast(t, s) + Dropped(t, s) + if Undelivered(t) == s then 1 else 0
  {
    if t.After? {
      SignalsConserved(t.before, s);
      if t.last.Recv? {
        ReportsFollowResumes(t);
      }
    }
  }

  /** A stop is reported only after a resume, which settled the signal before. */
  lemma ReportsFollowResumes(t: Trace)
    requires Lawful(t) && t.After? && t.last.Recv?
    ensures t.before.After? && (t.before.last.Step? || t.before.last.Cont?) && Undelivered(t.before) == 0
  {
  }

  /** A signal reaches the target with the next resume, however long the user had the prompt in between, exactly if its
      pass flag is on by then and it did not come as the end of a step off a breakpoint. */
  lemma {:induction false} NextResumeDelivers(run: Trace, t: Trace, stop: Stop, u: Trace, e: Entry)
    requires Lawful(run) && Extends(After(u, e), run) && e.Cont?
    requires stop.Stopped? && RealSignal(stop.sig)
    requires Extends(After(t, Recv(stop)), u) && NoResumeSince(u, After(t, Recv(stop)))
    ensures e.deliver == stop.sig <==> Pending(t) == 0 && PassFlag(u, stop.sig)
    ensures e.deliver != stop.sig ==> e.deliver == 0
  {
    PrefixLawful(run, After(u, e));
    OwedUntilResumed(u, t, stop);
  }

  predicate NoResumeSince(u: Trace, t: Trace) {
    u != t && u.After? ==> !u.last.Step? && !u.last.Cont? && NoResumeSince(u.before, t)
  }

  lemma {:induction false} OwedUntilResumed(u: Trace, t: Trace, stop: Stop)
    requires Lawful(u) && Extends(After(t, Recv(stop)), u) && NoResumeSince(u, After(t, Recv(stop)))
    requires stop.Stopped? && RealSignal(stop.sig)
    ensures Undelivered(u) == if Pending(t) == 0 then stop.sig else 0
  {
    if u != After(t, Recv(stop)) {
      OwedUntilResumed(u.before, t, stop);
    }
  }

  /** No lawful run delivers the debugger's own SIGTRAP, and none leaves one for the next resume. */
  lemma {:induction false} SigtrapNeverDelivered(t: Trace)
    requires Lawful(t)
    ensures Delivered(t, SIGTRAP) == 0 && Undelivered(t) != SIGTRAP
  {
    if t.After? {
      SigtrapNeverDelivered(t.before);
    }
  }
}
