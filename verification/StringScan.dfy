/** The string scanner of the static debugger: printable runs of at least four characters,
    as bytes or as little-endian UTF-16 pairs at even offsets. */
module StringScan {
  import opened Common

  const MIN_CHARS := 4

  /** isprint in the C locale. */
  predicate IsPrint(c: byte) { 0x20 <= c <= 0x7E }

  /** Which characters of the buffer are printable: one per byte, or one per byte pair. */
  function AsciiMask(buf: seq<byte>): (m: seq<bool>)
    ensures |m| == |buf|
  {
    seq(|buf|, k requires 0 <= k < |buf| => IsPrint(buf[k]))
  }

  function Utf16Mask(buf: seq<byte>): (m: seq<bool>)
    ensures |m| == |buf| / 2
  {
    seq(|buf| / 2, k requires 0 <= k < |buf| / 2 => IsPrint(buf[2 * k]) && buf[2 * k + 1] == 0)
  }

  datatype Found = Found(start: nat, len: nat)

  predicate AllOf(m: seq<bool>, from: int, to: int) {
    0 <= from && to <= |m| && forall k :: from <= k < to ==> m[k]
  }

  /** A run that is long enough and cannot be extended on either side. */
  predicate MaximalRun(m: seq<bool>, f: Found) {
    && f.len >= MIN_CHARS && f.start + f.len <= |m|
    && AllOf(m, f.start, f.start + f.len)
    && (f.start > 0 ==> !m[f.start - 1])
    && (f.start + f.len < |m| ==> !m[f.start + f.len])
  }

  ghost predicate Ordered(runs: seq<Found>) {
    forall i, j :: 0 <= i < j < |runs| ==> runs[i].start + runs[i].len < runs[j].start
  }

  /** Exactly the maximal runs, in order, none overlapping. */
  ghost predicate Exact(m: seq<bool>, runs: seq<Found>) {
    && (forall i :: 0 <= i < |runs| ==> MaximalRun(m, runs[i]))
    && (forall f :: MaximalRun(m, f) ==> f in runs)
    && Ordered(runs)
  }

  /** There is only one such list, so the scanner's result is determined by the buffer. */
  lemma {:induction false} ExactIsUnique(m: seq<bool>, a: seq<Found>, b: seq<Found>)
    requires Exact(m, a) && Exact(m, b)
    ensures a == b
  {
    SameMembers(m, a, b);
    SameMembers(m, b, a);
    PrefixAgrees(a, b, |a|);
    PrefixAgrees(b, a, |b|);
  }

  predicate Among(a: seq<Found>, b: seq<Found>) {
    forall k :: 0 <= k < |a| ==> a[k] in b
  }

  lemma {:induction false} SameMembers(m: seq<bool>, a: seq<Found>, b: seq<Found>)
    requires Exact(m, a) && Exact(m, b)
    ensures Among(a, b)
  {
    forall k | 0 <= k < |a| ensures a[k] in b {
      assert MaximalRun(m, a[k]);
    }
  }

  lemma {:induction false} PrefixAgrees(a: seq<Found>, b: seq<Found>, n: nat)
    requires Ordered(a) && Ordered(b) && Among(a, b) && Among(b, a) && n <= |a|
    ensures n <= |b| && a[..n] == b[..n]
  {
    if n > 0 {
      PrefixAgrees(a, b, n - 1);
      NextAgrees(a, b, n);
      assert a[..n] == a[..n - 1] + [a[n - 1]];
      assert b[..n] == b[..n - 1] + [b[n - 1]];
    }
  }

  /** The run after an agreed prefix is the same in both lists. */
  lemma {:induction false} NextAgrees(a: seq<Found>, b: seq<Found>, n: nat)
    requires Ordered(a) && Ordered(b) && Among(a, b) && Among(b, a) && 0 < n <= |a| && n - 1 <= |b|
    requires a[..n - 1] == b[..n - 1]
    ensures n <= |b| && a[n - 1] == b[n - 1]
  {
    var i := IndexIn(b, a[n - 1]);
    NotEarlier(a, b, n, i);
    var k := IndexIn(a, b[n - 1]);
    NotEarlier(b, a, n, k);
    StartsOrder(a, n - 1, k);
    StartsOrder(b, n - 1, i);
  }

  lemma {:induction false} StartsOrder(s: seq<Found>, i: nat, j: nat)
    requires Ordered(s) && i <= j < |s|
    ensures s[i].start <= s[j].start
    ensures s[i].start == s[j].start ==> i == j
  {
  }

  lemma {:induction false} NotEarlier(a: seq<Found>, b: seq<Found>, n: nat, i: nat)
    requires Ordered(a) && 0 < n <= |a| && i < |b| && b[i] == a[n - 1]
    requires n - 1 <= |b| && a[..n - 1] == b[..n - 1]
    ensures i >= n - 1
  {
    assert forall k :: 0 <= k < n - 1 ==> a[..n - 1][k] == a[k] && b[..n - 1][k] == b[k];
  }

  lemma IndexIn(s: seq<Found>, f: Found) returns (i: nat)
    requires f in s
    ensures i < |s| && s[i] == f
  {
    i :| i < |s| && s[i] == f;
  }

  /** What is handed to the printer. */
  datatype Printed = Printed(vaddr: nat, text: seq<byte>, utf16: bool)

  function AsciiLine(buf: seq<byte>, base: nat, f: Found): Printed
    requires f.start + f.len <= |buf|
  {
    Printed((base + f.start) % TWO_64, buf[f.start..f.start + f.len], false)
  }

  function Utf16Line(buf: seq<byte>, base: nat, f: Found): Printed
    requires 2 * (f.start + f.len) <= |buf|
  {
    Printed((base + 2 * f.start) % TWO_64, seq(f.len, i requires 0 <= i < f.len => buf[2 * (f.start + i)]), true)
  }

  /** Four or more printable bytes from `s` on, with none before or behind. */
  ghost predicate AsciiRun(buf: seq<byte>, s: nat, n: nat) {
    && n >= 4 && s + n <= |buf|
    && (forall k :: s <= k < s + n ==> 0x20 <= buf[k] <= 0x7E)
    && (s > 0 ==> !(0x20 <= buf[s - 1] <= 0x7E))
    && (s + n < |buf| ==> !(0x20 <= buf[s + n] <= 0x7E))
  }

  /** The pair at an even offset is a printable UTF-16 character. */
  ghost predicate PairPrints(buf: seq<byte>, c: nat) {
    2 * c + 1 < |buf| && 0x20 <= buf[2 * c] <= 0x7E && buf[2 * c + 1] == 0
  }

  ghost predicate Utf16Run(buf: seq<byte>, s: nat, n: nat) {
    && n >= 4 && 2 * (s + n) <= |buf|
    && (forall c :: s <= c < s + n ==> PairPrints(buf, c))
    && (s > 0 ==> !PairPrints(buf, s - 1))
    && !PairPrints(buf, s + n)
  }

  lemma {:induction false} AsciiRunIsMaximal(buf: seq<byte>, s: nat, n: nat)
    ensures AsciiRun(buf, s, n) <==> MaximalRun(AsciiMask(buf), Found(s, n))
  {
    var m := AsciiMask(buf);
    assert forall k :: 0 <= k < |buf| ==> (m[k] <==> 0x20 <= buf[k] <= 0x7E);
  }

  lemma {:induction false} Utf16RunIsMaximal(buf: seq<byte>, s: nat, n: nat)
    ensures Utf16Run(buf, s, n) <==> MaximalRun(Utf16Mask(buf), Found(s, n))
  {
    var m := Utf16Mask(buf);
    assert forall c: nat :: PairPrints(buf, c) <==> c < |m| && m[c];
  }

  ghost predicate AsciiPrinted(buf: seq<byte>, base: nat, s: nat, n: nat, line: Printed) {
    && line.vaddr == (base + s) % 0x1_0000_0000_0000_0000 && !line.utf16
    && s + n <= |buf| && line.text == buf[s..s + n]
  }

  ghost predicate Utf16Printed(buf: seq<byte>, base: nat, s: nat, n: nat, line: Printed) {
    && line.vaddr == (base + 2 * s) % 0x1_0000_0000_0000_0000 && line.utf16
    && 2 * (s + n) <= |buf| && |line.text| == n
    && forall k :: 0 <= k < n ==> line.text[k] == buf[2 * (s + k)]
  }

  ghost predicate AsciiLineOk(buf: seq<byte>, base: nat, line: Printed) {
    exists s: nat, n: nat :: AsciiRun(buf, s, n) && AsciiPrinted(buf, base, s, n, line)
  }

  ghost predicate AsciiShown(buf: seq<byte>, base: nat, s: nat, n: nat, out: seq<Printed>) {
    exists i :: 0 <= i < |out| && AsciiPrinted(buf, base, s, n, out[i])
  }

  /** Every line printed is such a run at its address, and every such run is printed. */
  ghost predicate AllAscii(buf: seq<byte>, base: nat, out: seq<Printed>) {
    && (forall i :: 0 <= i < |out| ==> AsciiLineOk(buf, base, out[i]))
    && (forall s: nat, n: nat :: AsciiRun(buf, s, n) ==> AsciiShown(buf, base, s, n, out))
  }

  ghost predicate Utf16LineOk(buf: seq<byte>, base: nat, line: Printed) {
    exists s: nat, n: nat :: Utf16Run(buf, s, n) && Utf16Printed(buf, base, s, n, line)
  }

  ghost predicate Utf16Shown(buf: seq<byte>, base: nat, s: nat, n: nat, out: seq<Printed>) {
    exists i :: 0 <= i < |out| && Utf16Printed(buf, base, s, n, out[i])
  }

  ghost predicate AllUtf16(buf: seq<byte>, base: nat, out: seq<Printed>) {
    && (forall i :: 0 <= i < |out| ==> Utf16LineOk(buf, base, out[i]))
    && (forall s: nat, n: nat :: Utf16Run(buf, s, n) ==> Utf16Shown(buf, base, s, n, out))
  }

  lemma {:induction false} RunOf(m: seq<bool>, runs: seq<Found>, i: nat)
    requires Exact(m, runs) && i < |runs|
    ensures MaximalRun(m, runs[i])
  {
  }

  lemma {:induction false} RunIsListed(m: seq<bool>, runs: seq<Found>, f: Found) returns (i: nat)
    requires Exact(m, runs) && MaximalRun(m, f)
    ensures i < |runs| && runs[i] == f
  {
    i := IndexIn(runs, f);
  }

  lemma {:induction false} AsciiLinesMean(buf: seq<byte>, base: nat, out: seq<Printed>, runs: seq<Found>)
    requires Exact(AsciiMask(buf), runs) && AsciiLines(buf, base, out, runs)
    ensures AllAscii(buf, base, out)
  {
    forall i | 0 <= i < |out|
      ensures AsciiLineOk(buf, base, out[i])
    {
      RunOf(AsciiMask(buf), runs, i);
      AsciiRunIsMaximal(buf, runs[i].start, runs[i].len);
      assert AsciiPrinted(buf, base, runs[i].start, runs[i].len, out[i]);
    }
    forall s: nat, n: nat | AsciiRun(buf, s, n)
      ensures AsciiShown(buf, base, s, n, out)
    {
      AsciiRunIsMaximal(buf, s, n);
      var i := RunIsListed(AsciiMask(buf), runs, Found(s, n));
      assert AsciiPrinted(buf, base, s, n, out[i]);
    }
  }

  lemma {:induction false} Utf16LineMeans(buf: seq<byte>, base: nat, f: Found, line: Printed)
    requires 2 * (f.start + f.len) <= |buf| && line == Utf16Line(buf, base, f)
    ensures Utf16Printed(buf, base, f.start, f.len, line)
    ensures MaximalRun(Utf16Mask(buf), f) <==> Utf16Run(buf, f.start, f.len)
  {
    Utf16RunIsMaximal(buf, f.start, f.len);
  }

  lemma {:induction false} Utf16LinesMean(buf: seq<byte>, base: nat, out: seq<Printed>, runs: seq<Found>)
    requires Exact(Utf16Mask(buf), runs) && Utf16Lines(buf, base, out, runs)
    ensures AllUtf16(buf, base, out)
  {
    forall i | 0 <= i < |out|
      ensures Utf16LineOk(buf, base, out[i])
    {
      RunOf(Utf16Mask(buf), runs, i);
      Utf16LineMeans(buf, base, runs[i], out[i]);
    }
    forall s: nat, n: nat | Utf16Run(buf, s, n)
      ensures Utf16Shown(buf, base, s, n, out)
    {
      Utf16RunIsMaximal(buf, s, n);
      var i := RunIsListed(Utf16Mask(buf), runs, Found(s, n));
      Utf16LineMeans(buf, base, runs[i], out[i]);
    }
  }

  /** After `j` characters the last `open` of them are a run, open on the left only. */
  predicate OpenRun(m: seq<bool>, j: nat, open: nat) {
    && open <= j <= |m|
    && AllOf(m, j - open, j)
    && (j - open > 0 ==> !m[j - open - 1])
  }

  /** The state of a scan: the open run, and every maximal run before it already found. */
  ghost predicate Scanned(m: seq<bool>, j: nat, open: nat, runs: seq<Found>) {
    && OpenRun(m, j, open)
    && (forall i :: 0 <= i < |runs| ==> MaximalRun(m, runs[i]) && runs[i].start + runs[i].len < j - open)
    && (forall f :: MaximalRun(m, f) && f.start < j - open ==> f in runs)
    && Ordered(runs)
  }

  /** A maximal run that is not before the open run is the open run, once that has ended. */
  lemma OnlyTheOpenRun(m: seq<bool>, j: nat, open: nat, f: Found)
    requires OpenRun(m, j, open) && (j < |m| ==> !m[j])
    requires MaximalRun(m, f) && j - open <= f.start <= j
    ensures f == Found(j - open, open)
  {
    AllOfAt(m, f.start, f.start + f.len, f.start);
    if f.start > j - open {
      AllOfAt(m, j - open, j, f.start - 1);
      assert false;
    }
    if f.len < open {
      AllOfAt(m, j - open, j, f.start + f.len);
      assert false;
    }
    if f.len > open {
      AllOfAt(m, f.start, f.start + f.len, j);
      assert false;
    }
  }

  lemma AllOfAt(m: seq<bool>, from: int, to: int, k: int)
    requires AllOf(m, from, to) && from <= k < to
    ensures 0 <= k < |m| && m[k]
  {
  }

  function Closed(runs: seq<Found>, j: nat, open: nat): seq<Found>
    requires open <= j
  {
    if open >= MIN_CHARS then runs + [Found(j - open, open)] else runs
  }

  lemma ScanCloses(m: seq<bool>, j: nat, open: nat, runs: seq<Found>)
    requires Scanned(m, j, open, runs) && (j < |m| ==> !m[j])
    ensures if j < |m| then Scanned(m, j + 1, 0, Closed(runs, j, open)) else Exact(m, Closed(runs, j, open))
  {
    var closed := Closed(runs, j, open);
    forall f | MaximalRun(m, f) && f.start <= j
      ensures f in closed
    {
      if f.start < j - open {
        assert f in runs;
      } else {
        OnlyTheOpenRun(m, j, open, f);
        assert closed[|runs|] == f;
      }
    }
    forall i | 0 <= i < |closed|
      ensures MaximalRun(m, closed[i]) && closed[i].start + closed[i].len <= j
    {
      if i < |runs| {
        assert closed[i] == runs[i];
      }
    }
  }

  lemma ScanOpens(m: seq<bool>, j: nat, open: nat, runs: seq<Found>)
    requires Scanned(m, j, open, runs) && j < |m| && m[j]
    ensures Scanned(m, j + 1, open + 1, runs)
  {
  }

  ghost predicate AsciiLines(buf: seq<byte>, base: nat, out: seq<Printed>, runs: seq<Found>) {
    |out| == |runs| && forall i :: 0 <= i < |out| ==>
      runs[i].start + runs[i].len <= |buf| && out[i] == AsciiLine(buf, base, runs[i])
  }

  ghost predicate Utf16Lines(buf: seq<byte>, base: nat, out: seq<Printed>, runs: seq<Found>) {
    |out| == |runs| && forall i :: 0 <= i < |out| ==>
      2 * (runs[i].start + runs[i].len) <= |buf| && out[i] == Utf16Line(buf, base, runs[i])
  }

  /** A run that has ended before character `j` is printed if it is long enough. */
  method PrintAscii(buf: seq<byte>, base: nat, runStart: nat, runLen: nat, out: seq<Printed>, ghost runs: seq<Found>,
      ghost j: nat)
    returns (more: seq<Printed>)
    requires runLen <= j <= |buf| && (runLen > 0 ==> runStart == j - runLen) && AsciiLines(buf, base, out, runs)
    ensures AsciiLines(buf, base, more, Closed(runs, j, runLen))
  {
    more := if runLen >= MIN_CHARS then out + [AsciiLine(buf, base, Found(runStart, runLen))] else out;
  }

  method PrintUtf16(buf: seq<byte>, base: nat, runStart: nat, runChars: nat, out: seq<Printed>,
      ghost runs: seq<Found>, ghost j: nat)
    returns (more: seq<Printed>)
    requires runChars <= j && 2 * j <= |buf| && (runChars > 0 ==> runStart == 2 * (j - runChars)) &&
      Utf16Lines(buf, base, out, runs)
    ensures Utf16Lines(buf, base, more, Closed(runs, j, runChars))
  {
    more := if runChars >= MIN_CHARS then out + [Utf16Line(buf, base, Found(runStart / 2, runChars))] else out;
  }

  method FlushAscii(buf: seq<byte>, base: nat, runStart: nat, runLen: nat, out: seq<Printed>, ghost m: seq<bool>,
      ghost runs: seq<Found>, ghost j: nat)
    returns (more: seq<Printed>, ghost closed: seq<Found>)
    requires j <= |buf| && Scanned(m, j, runLen, runs) && (j < |m| ==> !m[j])
    requires (runLen > 0 ==> runStart == j - runLen) && AsciiLines(buf, base, out, runs)
    ensures AsciiLines(buf, base, more, closed)
    ensures if j < |m| then Scanned(m, j + 1, 0, closed) else Exact(m, closed)
  {
    more := PrintAscii(buf, base, runStart, runLen, out, runs, j);
    closed := Closed(runs, j, runLen);
    ScanCloses(m, j, runLen, runs);
  }

  method FlushUtf16(buf: seq<byte>, base: nat, runStart: nat, runChars: nat, out: seq<Printed>, ghost m: seq<bool>,
      ghost runs: seq<Found>, ghost j: nat)
    returns (more: seq<Printed>, ghost closed: seq<Found>)
    requires 2 * j <= |buf| && Scanned(m, j, runChars, runs) && (j < |m| ==> !m[j])
    requires (runChars > 0 ==> runStart == 2 * (j - runChars)) && Utf16Lines(buf, base, out, runs)
    ensures Utf16Lines(buf, base, more, closed)
    ensures if j < |m| then Scanned(m, j + 1, 0, closed) else Exact(m, closed)
  {
    more := PrintUtf16(buf, base, runStart, runChars, out, runs, j);
    closed := Closed(runs, j, runChars);
    ScanCloses(m, j, runChars, runs);
  }

  /** The lines printed are exactly the maximal runs of the buffer, in order. */
  method ScanAscii(buf: seq<byte>, base: nat) returns (out: seq<Printed>)
    ensures exists runs :: Exact(AsciiMask(buf), runs) && AsciiLines(buf, base, out, runs)
    ensures AllAscii(buf, base, out)
  {
    out := [];
    ghost var runs := [];
    var runStart, runLen := 0, 0;
    for j := 0 to |buf|
      invariant Scanned(AsciiMask(buf), j, runLen, runs)
      invariant runLen > 0 ==> runStart == j - runLen
      invariant AsciiLines(buf, base, out, runs)
    {
      if IsPrint(buf[j]) && buf[j] != 0 {
        ScanOpens(AsciiMask(buf), j, runLen, runs);
        if runLen == 0 {
          runStart := j;
        }
        runLen := runLen + 1;
      } else {
        out, runs := FlushAscii(buf, base, runStart, runLen, out, AsciiMask(buf), runs, j);
        runLen := 0;
      }
    }
    out, runs := FlushAscii(buf, base, runStart, runLen, out, AsciiMask(buf), runs, |buf|);
    AsciiLinesMean(buf, base, out, runs);
  }

  /** The test the loop makes at an even offset is the mask's. */
  lemma MaskAt(buf: seq<byte>, c: nat)
    requires 2 * c + 1 < |buf|
    ensures c < |Utf16Mask(buf)|
    ensures Utf16Mask(buf)[c] <==> IsPrint(buf[2 * c]) && buf[2 * c] != 0 && buf[2 * c + 1] == 0
  {
  }

  method ScanUtf16(buf: seq<byte>, base: nat) returns (out: seq<Printed>)
    ensures exists runs :: Exact(Utf16Mask(buf), runs) && Utf16Lines(buf, base, out, runs)
    ensures AllUtf16(buf, base, out)
  {
    out := [];
    ghost var runs := [];
    var j, runStart, runChars := 0, 0, 0;
    ghost var c := 0;
    while j + 1 < |buf|
      invariant j == 2 * c && 2 * c <= |buf|
      invariant Scanned(Utf16Mask(buf), c, runChars, runs)
      invariant runChars > 0 ==> runStart == 2 * (c - runChars)
      invariant Utf16Lines(buf, base, out, runs)
    {
      MaskAt(buf, c);
      if IsPrint(buf[j]) && buf[j] != 0 && buf[j + 1] == 0 {
        ScanOpens(Utf16Mask(buf), c, runChars, runs);
        if runChars == 0 {
          runStart := j;
        }
        runChars := runChars + 1;
      } else {
        out, runs := FlushUtf16(buf, base, runStart, runChars, out, Utf16Mask(buf), runs, c);
        runChars := 0;
      }
      j, c := j + 2, c + 1;
    }
    out, runs := FlushUtf16(buf, base, runStart, runChars, out, Utf16Mask(buf), runs, c);
    Utf16LinesMean(buf, base, out, runs);
  }
}
