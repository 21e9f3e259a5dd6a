/** The static debugger's seek history: two stacks of at most 32 positions that must look
    like one unbounded undo history. */
module SeekHistory {

  const SEEK_HIST_MAX := 32

  datatype Command = Seek(to: nat) | Undo | Redo

  /** The unbounded history: every position ever left, the positions undone, the current one,
      and how many of the oldest positions are out of reach. */
  datatype History = History(back: seq<nat>, forward: seq<nat>, at: nat, floor: nat) {
    ghost predicate Bounded() {
      floor <= |back| && |back| - floor + |forward| <= SEEK_HIST_MAX
    }

    function Step(c: Command): History {
      match c
      case Seek(v) =>
        if v == at then this
        else
          var b := back + [at];
          History(b, [], v, if |b| - floor > SEEK_HIST_MAX then floor + 1 else floor)
      case Undo =>
        if |back| <= floor then this
        else History(back[..|back| - 1], forward + [at], back[|back| - 1], floor)
      case Redo =>
        if forward == [] then this
        else History(back + [at], forward[..|forward| - 1], forward[|forward| - 1], floor)
    }

    function Run(cs: seq<Command>): History {
      if cs == [] then this else Run(cs[..|cs| - 1]).Step(cs[|cs| - 1])
    }
  }

  lemma {:induction false} RunKeepsBound(h: History, cs: seq<Command>)
    requires h.Bounded()
    ensures h.Run(cs).Bounded()
  {
    if cs != [] {
      RunKeepsBound(h, cs[..|cs| - 1]);
    }
  }

  /** `u` then `U`, and `U` then `u`, are the identity wherever the first one does anything. */
  lemma UndoRedoInverse(h: History)
    requires h.Bounded()
    ensures |h.back| > h.floor ==> h.Step(Undo).Step(Redo) == h
    ensures h.forward != [] ==> h.Step(Redo).Step(Undo) == h
  {
    if |h.back| > h.floor {
      assert h.back[..|h.back| - 1] + [h.back[|h.back| - 1]] == h.back;
      assert (h.forward + [h.at])[..|h.forward|] == h.forward;
    }
    if h.forward != [] {
      assert (h.back + [h.at])[..|h.back|] == h.back;
      assert h.forward[..|h.forward| - 1] + [h.forward[|h.forward| - 1]] == h.forward;
    }
  }

  function Times(n: nat, c: Command): seq<Command> {
    seq(n, _ => c)
  }

  lemma {:induction false} RunConcat(h: History, xs: seq<Command>, ys: seq<Command>)
    ensures h.Run(xs + ys) == h.Run(xs).Run(ys)
  {
    if ys == [] {
      assert xs + ys == xs;
    } else {
      assert (xs + ys)[..|xs + ys| - 1] == xs + ys[..|ys| - 1];
      RunConcat(h, xs, ys[..|ys| - 1]);
    }
  }

  lemma {:induction false} UndoTimes(h: History, n: nat)
    requires n <= |h.back| - h.floor
    ensures h.Run(Times(n, Undo)).back == h.back[..|h.back| - n]
    ensures h.Run(Times(n, Undo)).floor == h.floor
    ensures h.Run(Times(n, Undo)).at == (if n == 0 then h.at else h.back[|h.back| - n])
  {
    if n == 0 {
      assert h.back[..|h.back|] == h.back;
    } else {
      assert Times(n, Undo)[..n - 1] == Times(n - 1, Undo);
      UndoTimes(h, n - 1);
    }
  }

  /** Seeks only ever add to the back of the history, and forget nothing less than 32 deep. */
  lemma {:induction false} SeeksAppend(h: History, cs: seq<Command>)
    requires h.Bounded() && forall c <- cs :: c.Seek?
    ensures h.back <= h.Run(cs).back
    ensures |h.Run(cs).back| - h.Run(cs).floor ==
      if |h.Run(cs).back| - h.floor <= SEEK_HIST_MAX then |h.Run(cs).back| - h.floor else SEEK_HIST_MAX
    ensures |h.Run(cs).back| > |h.back| ==> h.Run(cs).back[|h.back|] == h.at
    ensures |h.Run(cs).back| == |h.back| ==> h.Run(cs).at == h.at
  {
    if cs != [] {
      var cs' := cs[..|cs| - 1];
      assert forall c <- cs' :: c in cs;
      assert cs[|cs| - 1] in cs;
      SeeksAppend(h, cs');
    }
  }

  /** After seeks that moved at most 32 times, as many undos bring back the starting position
      and everything before it. */
  lemma SeeksCanBeUndone(h: History, cs: seq<Command>, n: nat)
    requires h.Bounded() && forall c <- cs :: c.Seek?
    requires |h.Run(cs).back| == |h.back| + n && n <= SEEK_HIST_MAX
    ensures h.Run(cs + Times(n, Undo)).at == h.at
    ensures h.Run(cs + Times(n, Undo)).back == h.back
  {
    SeeksAppend(h, cs);
    RunConcat(h, cs, Times(n, Undo));
    UndoTimes(h.Run(cs), n);
  }

  /** The fields of the REPL that the seek commands change. */
  class Repl {
    var offset: nat
    const seekHist: array<nat>
    var seekHistCount: nat
    const redoStack: array<nat>
    var redoCount: nat
    ghost var dropped: seq<nat>  // positions shifted out of seekHist

    ghost predicate Valid()
      reads this, seekHist, redoStack
    {
      && seekHist.Length == redoStack.Length == SEEK_HIST_MAX && seekHist != redoStack
      && seekHistCount + redoCount <= SEEK_HIST_MAX
    }

    ghost function View(): History
      requires Valid()
      reads this, seekHist, redoStack
    {
      History(dropped + seekHist[..seekHistCount], redoStack[..redoCount], offset, |dropped|)
    }

    constructor (start: nat)
      ensures Valid() && View() == History([], [], start, 0)
      ensures fresh(seekHist) && fresh(redoStack)
    {
      offset := start;
      seekHist := new nat[SEEK_HIST_MAX];
      redoStack := new nat[SEEK_HIST_MAX];
      seekHistCount, redoCount := 0, 0;
      dropped := [];
    }

    /** Both stacks shift their oldest entry out when full. */
    static function Pushed(s: seq<nat>, v: nat): seq<nat> {
      if |s| == SEEK_HIST_MAX then s[1..] + [v] else s + [v]
    }

    method SeekHistPush(v: nat)
      requires seekHist.Length == SEEK_HIST_MAX && seekHistCount <= SEEK_HIST_MAX
      modifies this`seekHistCount, seekHist
      ensures seekHistCount <= SEEK_HIST_MAX && seekHist[..seekHistCount] == Pushed(old(seekHist[..seekHistCount]), v)
      ensures seekHistCount == (if old(seekHistCount) == 32 then 32 else old(seekHistCount) + 1)
      ensures seekHist[seekHistCount - 1] == v
    {
      if seekHistCount == SEEK_HIST_MAX {
        forall i | 0 <= i < SEEK_HIST_MAX - 1 {
          seekHist[i] := seekHist[i + 1];
        }
        seekHist[SEEK_HIST_MAX - 1] := v;
      } else {
        seekHist[seekHistCount] := v;
        seekHistCount := seekHistCount + 1;
      }
    }

    method RedoStackPush(v: nat)
      requires redoStack.Length == SEEK_HIST_MAX && redoCount <= SEEK_HIST_MAX
      modifies this`redoCount, redoStack
      ensures redoCount <= SEEK_HIST_MAX && redoStack[..redoCount] == Pushed(old(redoStack[..redoCount]), v)
      ensures redoCount == (if old(redoCount) == 32 then 32 else old(redoCount) + 1) && redoStack[redoCount - 1] == v
    {
      if redoCount == SEEK_HIST_MAX {
        forall i | 0 <= i < SEEK_HIST_MAX - 1 {
          redoStack[i] := redoStack[i + 1];
        }
        redoStack[SEEK_HIST_MAX - 1] := v;
      } else {
        redoStack[redoCount] := v;
        redoCount := redoCount + 1;
      }
    }

    method CmdSeek(v: nat)
      requires Valid()
      modifies this, seekHist
      ensures Valid() && View() == old(View()).Step(Seek(v))
      ensures offset == v && (v == old(offset) ==> View() == old(View()))
      ensures v != old(offset) ==> View().back == old(View()).back + [old(offset)] && redoCount == 0
    {
      if v == offset {
        return;
      }
      if seekHistCount == SEEK_HIST_MAX {
        dropped := dropped + [seekHist[0]];
      }
      SeekHistPush(offset);
      redoCount := 0;
      offset := v;
    }

    method CmdSeekUndo()
      requires Valid()
      modifies this, redoStack
      ensures Valid() && View() == old(View()).Step(Undo)
      ensures old(seekHistCount) == 0 ==> View() == old(View())
      ensures old(seekHistCount) > 0 ==>
        && View().back + [offset] == old(View()).back && View().forward == old(View()).forward + [old(offset)]
    {
      if seekHistCount == 0 {
        return;
      }
      seekHistCount := seekHistCount - 1;
      var prev := seekHist[seekHistCount];
      RedoStackPush(offset);
      offset := prev;
      assert seekHist[..seekHistCount] == old(seekHist[..seekHistCount])[..seekHistCount];
      assert View().back == old(View()).back[..|old(View()).back| - 1];
    }

    method CmdSeekRedo()
      requires Valid()
      modifies this, seekHist
      ensures Valid() && View() == old(View()).Step(Redo)
      ensures old(redoCount) == 0 ==> View() == old(View())
      ensures old(redoCount) > 0 ==>
        && View().forward + [offset] == old(View()).forward && View().back == old(View()).back + [old(offset)]
    {
      if redoCount == 0 {
        return;
      }
      redoCount := redoCount - 1;
      var prev := redoStack[redoCount];
      SeekHistPush(offset);
      offset := prev;
    }

    /** Any stream of seek commands leaves the two bounded stacks as the unbounded history. */
    method Run(cs: seq<Command>)
      requires Valid()
      modifies this, seekHist, redoStack
      ensures Valid() && View() == old(View()).Run(cs)
    {
      for k := 0 to |cs|
        invariant Valid() && View() == old(View()).Run(cs[..k])
      {
        assert cs[..k + 1][..k] == cs[..k];
        match cs[k] {
          case Seek(v) => CmdSeek(v);
          case Undo => CmdSeekUndo();
          case Redo => CmdSeekRedo();
        }
      }
      assert cs[..|cs|] == cs;
    }
  }
}
