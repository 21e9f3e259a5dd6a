/** The static debugger's hexdump: sixteen bytes a row, and a run of three or more identical
    rows printed as its first row, a line of dots and its last row. */
module Hexdump {
  import opened Common

  const ROW := 16

  datatype Line = Row(addr: nat, bytes: seq<byte>) | Dots

  function AddrOf(vaddr: nat, k: nat): nat {
    (vaddr + ROW * k) % TWO_64
  }

  function RowCount(buf: seq<byte>): nat {
    (|buf| + ROW - 1) / ROW
  }

  /** Row `k` of the buffer; the last one may be short. */
  function RowBytes(buf: seq<byte>, k: nat): seq<byte>
    requires k < RowCount(buf)
  {
    buf[ROW * k..if ROW * k + ROW <= |buf| then ROW * k + ROW else |buf|]
  }

  /** The first `n` rows of the buffer, none left out. */
  function Rows(vaddr: nat, buf: seq<byte>, n: nat): seq<Line>
    requires n <= RowCount(buf)
  {
    seq(n, k requires 0 <= k < n => Row(AddrOf(vaddr, k), RowBytes(buf, k)))
  }

  /** The bytes of the rows, one row after the other. */
  function Bytes(lines: seq<Line>): seq<byte> {
    if lines == [] then []
    else
      var last := lines[|lines| - 1];
      Bytes(lines[..|lines| - 1]) + if last.Row? then last.bytes else []
  }

  /** Rows sixteen bytes apart, all but the last of them full, the last not empty. */
  ghost predicate InRows(vaddr: nat, lines: seq<Line>) {
    forall k :: 0 <= k < |lines| ==>
      && lines[k].Row? && lines[k].addr == (vaddr + 16 * k) % 0x1_0000_0000_0000_0000
      && 1 <= |lines[k].bytes| <= 16 && (k + 1 < |lines| ==> |lines[k].bytes| == 16)
  }

  lemma {:induction false} RowsHoldPrefix(vaddr: nat, buf: seq<byte>, n: nat)
    requires n <= RowCount(buf)
    ensures Bytes(Rows(vaddr, buf, n)) == buf[..if ROW * n <= |buf| then ROW * n else |buf|]
  {
    if n > 0 {
      RowsHoldPrefix(vaddr, buf, n - 1);
      var rows := Rows(vaddr, buf, n);
      assert rows[..n - 1] == Rows(vaddr, buf, n - 1);
      assert rows[n - 1].bytes == RowBytes(buf, n - 1);
      assert ROW * (n - 1) < |buf|;
    }
  }

  /** The rows are the buffer: no byte is lost, none is added, each is at its address. */
  lemma {:induction false} RowsAreBuffer(vaddr: nat, buf: seq<byte>)
    ensures Bytes(Rows(vaddr, buf, RowCount(buf))) == buf
    ensures InRows(vaddr, Rows(vaddr, buf, RowCount(buf)))
  {
    RowsHoldPrefix(vaddr, buf, RowCount(buf));
    assert buf[..|buf|] == buf;
  }

  // ---- reading a dump back ----

  /** `n` rows with the same bytes, sixteen bytes apart. */
  function Copies(addr: nat, bytes: seq<byte>, n: nat): seq<Line> {
    seq(n, k requires 0 <= k < n => Row(AddrOf(addr, k), bytes))
  }

  predicate DotsNext(lines: seq<Line>) {
    |lines| >= 3 && lines[0].Row? && lines[1].Dots? && lines[2].Row?
  }

  /** Dots stand for copies of the row above, up to the address of the row below. */
  function Expand(lines: seq<Line>): seq<Line> {
    if lines == [] then []
    else if DotsNext(lines) then Gap(lines[0].addr, lines[2].addr, lines[0].bytes) + Expand(lines[2..])
    else [lines[0]] + Expand(lines[1..])
  }

  function Gap(above: nat, below: nat, bytes: seq<byte>): seq<Line> {
    Copies(above, bytes, (below - above) % TWO_64 / ROW)
  }

  lemma {:induction false} ExpandConcat(a: seq<Line>, b: seq<Line>)
    requires a != [] ==> a[|a| - 1].Row?
    requires b != [] ==> b[0].Row?
    ensures Expand(a + b) == Expand(a) + Expand(b)
  {
    var c := a + b;
    if a == [] {
      assert c == b;
    } else if DotsNext(a) {
      assert DotsNext(c) && c[2..] == a[2..] + b;
      ExpandConcat(a[2..], b);
      assert Expand(c) == Gap(a[0].addr, a[2].addr, a[0].bytes) + Expand(c[2..]);
    } else {
      assert !DotsNext(c) && c[1..] == a[1..] + b;
      ExpandConcat(a[1..], b);
      assert Expand(c) == [a[0]] + Expand(c[1..]);
    }
  }

  /** A run of `run + 1` identical rows, as printed. */
  function RunLines(first: nat, last: nat, bytes: seq<byte>, run: nat): seq<Line> {
    [Row(first, bytes)] +
    if run >= 2 then [Dots, Row(last, bytes)] else if run == 1 then [Row(last, bytes)] else []
  }

  lemma Distance(vaddr: nat, a: nat, d: nat)
    requires ROW * d < TWO_64
    ensures (AddrOf(vaddr, a + d) - AddrOf(vaddr, a)) % TWO_64 == ROW * d
    ensures AddrOf(AddrOf(vaddr, a), d) == AddrOf(vaddr, a + d)
  {
  }

  lemma ExpandRun(vaddr: nat, buf: seq<byte>, a: nat, run: nat, bytes: seq<byte>)
    requires a + run < RowCount(buf) && |buf| < TWO_64
    requires forall k :: a <= k <= a + run ==> RowBytes(buf, k) == bytes
    ensures Rows(vaddr, buf, a) + Expand(RunLines(AddrOf(vaddr, a), AddrOf(vaddr, a + run), bytes, run)) ==
      Rows(vaddr, buf, a + run + 1)
  {
    var first, last := AddrOf(vaddr, a), AddrOf(vaddr, a + run);
    var lines := RunLines(first, last, bytes, run);
    assert Expand([Row(last, bytes)]) == [Row(last, bytes)];
    if run >= 2 {
      Distance(vaddr, a, run);
      assert lines[2..] == [Row(last, bytes)];
      assert Expand(lines) == Copies(first, bytes, run) + [Row(last, bytes)];
      forall k | 0 <= k < run ensures Copies(first, bytes, run)[k] == Row(AddrOf(vaddr, a + k), bytes) {
        Distance(vaddr, a, k);
      }
    } else if run == 1 {
      assert lines[1..] == [Row(last, bytes)];
    }
  }

  /** No three rows that follow one another without dots are alike. */
  ghost predicate NoTriple(lines: seq<Line>) {
    forall i :: 0 <= i && i + 2 < |lines| && lines[i].Row? && lines[i + 1].Row? && lines[i + 2].Row? ==>
      !(lines[i].bytes == lines[i + 1].bytes == lines[i + 2].bytes)
  }

  /** The dots at `i` stand between two equal rows and hide at least one more. */
  predicate Earned(lines: seq<Line>, i: nat) {
    && 0 < i && i + 1 < |lines| && lines[i - 1].Row? && lines[i + 1].Row?
    && lines[i - 1].bytes == lines[i + 1].bytes
    && Hides(lines[i - 1].addr, lines[i + 1].addr)
  }

  predicate Hides(above: nat, below: nat) {
    (below - above) % TWO_64 >= 2 * ROW
  }

  ghost predicate DotsEarned(lines: seq<Line>) {
    forall i: nat :: i < |lines| && lines[i].Dots? ==> Earned(lines, i)
  }

  lemma DotsEarnedConcat(a: seq<Line>, first: nat, last: nat, run: nat, bytes: seq<byte>)
    requires DotsEarned(a) && (a != [] ==> a[|a| - 1].Row?) && (run >= 2 ==> Hides(first, last))
    ensures DotsEarned(a + RunLines(first, last, bytes, run))
  {
    var lines := RunLines(first, last, bytes, run);
    var all := a + lines;
    forall i: nat | i < |all| && all[i].Dots?
      ensures Earned(all, i)
    {
      if i < |a| {
        assert Earned(a, i);
        assert all[i] == a[i] && all[i - 1] == a[i - 1] && all[i + 1] == a[i + 1];
      } else {
        assert i == |a| + 1 && all[i - 1] == lines[0] && all[i + 1] == lines[2];
      }
    }
  }

  lemma NoTripleConcat(a: seq<Line>, first: nat, last: nat, bytes: seq<byte>, run: nat)
    requires NoTriple(a) && (a != [] ==> a[|a| - 1].Row? && a[|a| - 1].bytes != bytes)
    ensures NoTriple(a + RunLines(first, last, bytes, run))
  {
  }

  /** What has been printed so far, with the last `run + 1` rows before row `k` still held back. */
  ghost predicate Dumped(vaddr: nat, buf: seq<byte>, k: nat, run: nat, prev: seq<byte>, out: seq<Line>) {
    && run < k <= RowCount(buf)
    && (forall j :: k - run - 1 <= j < k ==> RowBytes(buf, j) == prev)
    && Expand(out) == Rows(vaddr, buf, k - run - 1)
    && (out != [] ==> out[|out| - 1].Row? && out[|out| - 1].bytes != prev)
    && NoTriple(out) && DotsEarned(out)
  }

  lemma RunHides(vaddr: nat, a: nat, run: nat)
    requires run >= 2 && ROW * run < TWO_64
    ensures Hides(AddrOf(vaddr, a), AddrOf(vaddr, a + run))
  {
    Distance(vaddr, a, run);
  }

  lemma RunExpands(vaddr: nat, buf: seq<byte>, a: nat, run: nat, bytes: seq<byte>, out: seq<Line>, first: nat,
      last: nat)
    requires a + run < RowCount(buf) && |buf| < TWO_64
    requires forall k :: a <= k <= a + run ==> RowBytes(buf, k) == bytes
    requires out != [] ==> out[|out| - 1].Row?
    requires Expand(out) == Rows(vaddr, buf, a)
    requires first == AddrOf(vaddr, a) && last == AddrOf(vaddr, a + run)
    ensures Expand(out + RunLines(first, last, bytes, run)) == Rows(vaddr, buf, a + run + 1)
  {
    ExpandConcat(out, RunLines(first, last, bytes, run));
    ExpandRun(vaddr, buf, a, run, bytes);
  }

  /** Printing a run different from what was printed before keeps the printed lines tidy. */
  lemma RunTidy(out: seq<Line>, first: nat, last: nat, bytes: seq<byte>, run: nat)
    requires NoTriple(out) && DotsEarned(out) && (out != [] ==> out[|out| - 1].Row? && out[|out| - 1].bytes != bytes)
    requires run >= 2 ==> Hides(first, last)
    ensures var all := out + RunLines(first, last, bytes, run);
      NoTriple(all) && DotsEarned(all) && all[|all| - 1].Row? && all[|all| - 1].bytes == bytes
  {
    DotsEarnedConcat(out, first, last, run, bytes);
    NoTripleConcat(out, first, last, bytes, run);
  }

  lemma RunDumped(vaddr: nat, buf: seq<byte>, k: nat, run: nat, prev: seq<byte>, out: seq<Line>, first: nat, last: nat)
    requires |buf| < TWO_64 && Dumped(vaddr, buf, k, run, prev, out)
    requires first == AddrOf(vaddr, k - run - 1) && last == AddrOf(vaddr, k - 1)
    ensures var all := out + RunLines(first, last, prev, run);
      && Expand(all) == Rows(vaddr, buf, k)
      && NoTriple(all) && DotsEarned(all)
      && all[|all| - 1].Row? && all[|all| - 1].bytes == prev
  {
    if run >= 2 {
      RunHides(vaddr, k - run - 1, run);
    }
    RunExpands(vaddr, buf, k - run - 1, run, prev, out, first, last);
    RunTidy(out, first, last, prev, run);
  }

  lemma RunGrows(vaddr: nat, buf: seq<byte>, k: nat, run: nat, prev: seq<byte>, out: seq<Line>)
    requires Dumped(vaddr, buf, k, run, prev, out) && k < RowCount(buf) && RowBytes(buf, k) == prev
    ensures Dumped(vaddr, buf, k + 1, run + 1, prev, out)
  {
  }

  lemma RunStarts(vaddr: nat, buf: seq<byte>, k: nat, row: seq<byte>, out: seq<Line>)
    requires k < RowCount(buf) && RowBytes(buf, k) == row
    requires Expand(out) == Rows(vaddr, buf, k) && NoTriple(out) && DotsEarned(out)
    requires out != [] ==> out[|out| - 1].Row? && out[|out| - 1].bytes != row
    ensures Dumped(vaddr, buf, k + 1, 0, row, out)
  {
  }

  /** The row that starts at an offset. */
  method ReadRow(buf: seq<byte>, i: nat, ghost k: nat) returns (row: seq<byte>)
    requires i == ROW * k && i < |buf|
    ensures k < RowCount(buf) && row == RowBytes(buf, k)
  {
    row := buf[i..if |buf| - i < ROW then |buf| else i + ROW];
  }

  /** Printing the held-back run. */
  method Flush(firstAddr: nat, lastAddr: nat, prev: seq<byte>, run: nat, out: seq<Line>) returns (more: seq<Line>)
    ensures more == out + RunLines(firstAddr, lastAddr, prev, run)
  {
    more := out + [Row(firstAddr, prev)];
    if run >= 2 {
      more := more + [Dots];
      more := more + [Row(lastAddr, prev)];
    } else if run == 1 {
      more := more + [Row(lastAddr, prev)];
    }
  }

  method FlushRun(vaddr: nat, buf: seq<byte>, firstAddr: nat, lastAddr: nat, prev: seq<byte>, run: nat,
      out: seq<Line>, ghost k: nat)
    returns (more: seq<Line>)
    requires |buf| < TWO_64 && Dumped(vaddr, buf, k, run, prev, out)
    requires firstAddr == AddrOf(vaddr, k - run - 1) && lastAddr == AddrOf(vaddr, k - 1)
    ensures Expand(more) == Rows(vaddr, buf, k) && NoTriple(more) && DotsEarned(more)
    ensures more != [] && more[|more| - 1].Row? && more[|more| - 1].bytes == prev
  {
    more := Flush(firstAddr, lastAddr, prev, run, out);
    RunDumped(vaddr, buf, k, run, prev, out, firstAddr, lastAddr);
  }

  /** The dump loses nothing: expanded, it is the buffer, in rows of sixteen at their addresses; and it
      never prints three identical rows in a row, nor dots that hide nothing. */
  method PrintHexdump(vaddr: nat, buf: seq<byte>) returns (out: seq<Line>)
    requires |buf| < TWO_64
    ensures Bytes(Expand(out)) == buf && InRows(vaddr, Expand(out))
    ensures Expand(out) == Rows(vaddr, buf, RowCount(buf))
    ensures NoTriple(out) && DotsEarned(out)
  {
    out := PrintRows(vaddr, buf);
    RowsAreBuffer(vaddr, buf);
  }

  /** The loop over the rows, holding back a run of identical ones. */
  method PrintRows(vaddr: nat, buf: seq<byte>) returns (out: seq<Line>)
    requires |buf| < TWO_64
    ensures Expand(out) == Rows(vaddr, buf, RowCount(buf))
    ensures NoTriple(out) && DotsEarned(out)
  {
    out := [];
    var prev: seq<byte> := [];
    var firstAddr, lastAddr, run := 0, 0, 0;
    var havePrev := false;
    var i := 0;
    ghost var k := 0;
    while i < |buf|
      invariant i == ROW * k && k <= RowCount(buf)
      invariant havePrev <==> k > 0
      invariant !havePrev ==> out == []
      invariant havePrev ==>
        && Dumped(vaddr, buf, k, run, prev, out)
        && firstAddr == AddrOf(vaddr, k - run - 1) && lastAddr == AddrOf(vaddr, k - 1)
    {
      var row := ReadRow(buf, i, k);
      if havePrev && row == prev {
        RunGrows(vaddr, buf, k, run, prev, out);
        run := run + 1;
        lastAddr := (vaddr + i) % TWO_64;
      } else {
        if havePrev {
          out := FlushRun(vaddr, buf, firstAddr, lastAddr, prev, run, out, k);
        }
        RunStarts(vaddr, buf, k, row, out);
        prev := row;
        firstAddr, lastAddr := (vaddr + i) % TWO_64, (vaddr + i) % TWO_64;
        run, havePrev := 0, true;
      }
      i, k := i + ROW, k + 1;
    }
    if havePrev {
      out := FlushRun(vaddr, buf, firstAddr, lastAddr, prev, run, out, k);
    }
  }
}
