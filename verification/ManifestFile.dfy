/** The manifest as a file: printed by a loop, read back line by line. */
module ManifestFile {
  import opened Common
  import opened Manifest
  import opened ManifestLine

  // ---- lines ----

  predicate NoNewline(s: string) { '\n' !in s }

  lemma {:induction false} LineLengthOf(s: string, rest: string, room: nat)
    requires NoNewline(s) && |s| < room
    ensures LineLength(s + ("\n" + rest), room) == |s| + 1
  {
    if s == [] {
      assert s + ("\n" + rest) == "\n" + rest;
    } else {
      assert s[0] in s && NoNewline(s[1..]);
      assert (s + ("\n" + rest))[1..] == s[1..] + ("\n" + rest);
      LineLengthOf(s[1..], rest, room - 1);
    }
  }

  /** A line that fits the buffer is read by itself. */
  lemma ReadStep(entry: string -> seq<Pkg>, s: string, rest: string)
    requires NoNewline(s) && |s| < LINE_CAP
    ensures ReadLines(entry, s + ("\n" + rest)) == entry(s + "\n") + ReadLines(entry, rest)
  {
    LineLengthOf(s, rest, LINE_CAP);
    var file := s + ("\n" + rest);
    assert file[..|s| + 1] == s + "\n";
    assert file[|s| + 1..] == rest;
  }

  /** A line without an entry is passed over. */
  lemma SkipStep(s: string, rest: string)
    requires NoNewline(s) && |s| < LINE_CAP && LineEntry(s + "\n") == []
    ensures Parse(s + ("\n" + rest)) == Parse(rest)
  {
    ReadStep(LineEntry, s, rest);
  }

  lemma PlainLine(s: string)
    requires NoQuote(s)
    ensures LineEntry(s) == []
  {
    AfterJoin([s], "name");
  }

  lemma OtherKeyLine(u: string, key: string, w: string)
    requires NoQuote(u) && NoQuote(key) && NoQuote(w) && key != "name"
    ensures LineEntry(u + "\"" + (key + "\"" + w)) == []
  {
    var ps := [u, key, w];
    assert ps[1..] == [key, w] && [key, w][1..] == [w];
    assert Join([key, w]) == key + "\"" + w;
    assert Join(ps) == u + "\"" + (key + "\"" + w);
    assert !KeyFirst(ps, "name");
    AfterJoin(ps, "name");
  }

  // ---- numbers ----

  function Pow10(k: nat): nat { if k == 0 then 1 else 10 * Pow10(k - 1) }

  lemma {:induction false} DecFits(n: nat, k: nat)
    requires 0 < k && n < Pow10(k)
    ensures |Dec(n)| <= k && NoQuote(Dec(n)) && NoNewline(Dec(n))
  {
    if n >= 10 {
      DecFits(n / 10, k - 1);
    }
  }

  lemma {:induction false} Pow10Square(k: nat)
    ensures Pow10(2 * k) == Pow10(k) * Pow10(k)
  {
    if k > 0 {
      Pow10Square(k - 1);
      assert Pow10(2 * k) == 100 * Pow10(2 * (k - 1));
    }
  }

  lemma PrintIntFits(n: int)
    requires -0x8000_0000_0000_0000 <= n < 0x8000_0000_0000_0000
    ensures |PrintInt(n)| <= 21 && NoQuote(PrintInt(n)) && NoNewline(PrintInt(n))
  {
    assert Pow10(5) == 10 * Pow10(4) == 10 * (10 * (10 * Pow10(2))) == 100_000;
    Pow10Square(5);
    Pow10Square(10);
    assert Pow10(20) == 100_000_000_000_000_000_000;
    DecFits(if n < 0 then -n else n, 20);
  }

  // ---- the header ----

  /** A header line that holds a number, without its newline. */
  function NumberText(key: string, n: int): string {
    "  " + "\"" + (key + "\"" + (": " + PrintInt(n) + ","))
  }

  const PACKAGES_TEXT := "  " + "\"" + ("packages" + "\"" + ": [")

  lemma NumberLine(key: string, n: int, rest: string)
    requires NoQuote(key) && key != "name" && NoNewline(key) && |key| < 100
    requires -0x8000_0000_0000_0000 <= n < 0x8000_0000_0000_0000
    ensures Parse(NumberText(key, n) + ("\n" + rest)) == Parse(rest)
  {
    PrintIntFits(n);
    var w := ": " + PrintInt(n) + ",";
    OtherKeyLine("  ", key, w + "\n");
    assert NumberText(key, n) + "\n" == "  " + "\"" + (key + "\"" + (w + "\n"));
    SkipStep(NumberText(key, n), rest);
  }

  lemma PackagesLine(rest: string)
    ensures Parse(PACKAGES_TEXT + ("\n" + rest)) == Parse(rest)
  {
    OtherKeyLine("  ", "packages", ": [\n");
    assert PACKAGES_TEXT + "\n" == "  " + "\"" + ("packages" + "\"" + ": [\n");
    SkipStep(PACKAGES_TEXT, rest);
  }

  lemma BraceLine(rest: string)
    ensures Parse("{" + ("\n" + rest)) == Parse(rest)
  {
    PlainLine("{" + "\n");
    SkipStep("{", rest);
  }

  /** The header line by line, followed by the rest of the file. */
  function HeaderLines(id: int, timestamp: int, rest: string): string {
    "{" + ("\n" + (NumberText("id", id)
    + ("\n" + (NumberText("timestamp", timestamp) + ("\n" + (PACKAGES_TEXT + ("\n" + rest)))))))
  }

  lemma HeaderLinesParse(id: int, timestamp: int, rest: string)
    requires -0x8000_0000 <= id < 0x8000_0000 && -0x8000_0000_0000_0000 <= timestamp < 0x8000_0000_0000_0000
    ensures Parse(HeaderLines(id, timestamp, rest)) == Parse(rest)
  {
    var packages := PACKAGES_TEXT + ("\n" + rest);
    var time := NumberText("timestamp", timestamp) + ("\n" + packages);
    PackagesLine(rest);
    NumberLine("timestamp", timestamp, packages);
    NumberLine("id", id, time);
    BraceLine(NumberText("id", id) + ("\n" + time));
  }

  lemma HeaderText(id: int, timestamp: int, rest: string)
    ensures Header(id, timestamp) + rest == HeaderLines(id, timestamp, rest)
  {
    IdText(id);
    TimestampText(timestamp);
    assert "  \"packages\": [\n" == PACKAGES_TEXT + "\n";
    Regroup4("{", NumberText("id", id), NumberText("timestamp", timestamp), PACKAGES_TEXT, rest);
  }

  lemma IdText(n: int)
    ensures "  \"id\": " + PrintInt(n) + ",\n" == NumberText("id", n) + "\n"
  {
    assert "  \"id\": " == "  " + "\"" + ("id" + "\"" + ": ");
  }

  lemma TimestampText(n: int)
    ensures "  \"timestamp\": " + PrintInt(n) + ",\n" == NumberText("timestamp", n) + "\n"
  {
    assert "  \"timestamp\": " == "  " + "\"" + ("timestamp" + "\"" + ": ");
  }

  lemma Regroup4(a: string, b: string, c: string, d: string, rest: string)
    ensures "{\n" == "{" + "\n"
    ensures (a + "\n") + (b + "\n") + (c + "\n") + (d + "\n") + rest ==
      a + ("\n" + (b + ("\n" + (c + ("\n" + (d + ("\n" + rest)))))))
  {
  }

  // ---- the packages ----

  lemma PkgTextFits(p: Pkg)
    requires PkgOk(p)
    ensures |PkgText(p)| + 1 < LINE_CAP && NoNewline(PkgText(p))
  {
    assert NoNewline(NamePart(p)) && |NamePart(p)| < 400;
    assert NoNewline(StorePart(p)) && |StorePart(p)| < 4200;
    assert NoNewline(OriginPart(p)) && |OriginPart(p)| < 100;
  }

  /** An entry's line, with or without the comma that announces another. */
  function EntryLine(p: Pkg, comma: bool): string {
    PkgText(p) + if comma then "," else ""
  }

  lemma EntryLineParses(p: Pkg, comma: bool)
    requires PkgOk(p)
    ensures LineEntry(EntryLine(p, comma) + "\n") == [p]
    ensures NoNewline(EntryLine(p, comma)) && |EntryLine(p, comma)| < LINE_CAP
  {
    PkgTextFits(p);
    var t := PkgText(p);
    LineRoundTrip(p, if comma then ",\n" else "\n");
    assert t + "," + "\n" == t + ",\n" && t + "" + "\n" == t + "\n";
  }

  /** Lines, followed by the rest of the file. */
  function FileOf(lines: seq<string>, rest: string): string {
    if lines == [] then rest else lines[0] + ("\n" + FileOf(lines[1..], rest))
  }

  lemma {:induction false} LinesRead(entry: string -> seq<Pkg>, lines: seq<string>, pkgs: seq<Pkg>, rest: string)
    requires |lines| == |pkgs|
    requires forall i :: 0 <= i < |lines| ==>
      NoNewline(lines[i]) && |lines[i]| < LINE_CAP && entry(lines[i] + "\n") == [pkgs[i]]
    ensures ReadLines(entry, FileOf(lines, rest)) == pkgs + ReadLines(entry, rest)
  {
    if lines != [] {
      ReadStep(entry, lines[0], FileOf(lines[1..], rest));
      LinesRead(entry, lines[1..], pkgs[1..], rest);
      assert [pkgs[0]] + pkgs[1..] == pkgs;
    }
  }

  function EntryLines(pkgs: seq<Pkg>): seq<string> {
    seq(|pkgs|, i requires 0 <= i < |pkgs| => EntryLine(pkgs[i], i < |pkgs| - 1))
  }

  lemma {:induction false} EntriesText(pkgs: seq<Pkg>, rest: string)
    requires pkgs != []
    ensures PkgLines(pkgs) + ("\n" + rest) == FileOf(EntryLines(pkgs), rest)
  {
    var lines := EntryLines(pkgs);
    if |pkgs| == 1 {
      assert lines[1..] == [] && lines[0] == PkgLines(pkgs);
      assert FileOf(lines[1..], rest) == rest;
    } else {
      assert lines[1..] == EntryLines(pkgs[1..]);
      EntriesText(pkgs[1..], rest);
      Regroup3(PkgText(pkgs[0]), PkgLines(pkgs[1..]), rest);
    }
  }

  lemma Regroup3(a: string, b: string, rest: string)
    ensures a + ",\n" + b + ("\n" + rest) == (a + ",") + ("\n" + (b + ("\n" + rest)))
  {
  }

  const FOOTER := "  ]\n" + "}\n"

  lemma FooterParses()
    ensures Parse(FOOTER) == []
  {
    PlainLine("}" + "\n");
    SkipStep("}", "");
    PlainLine("  ]" + "\n");
    SkipStep("  ]", "}" + ("\n" + ""));
    assert "  ]" + ("\n" + ("}" + ("\n" + ""))) == FOOTER;
  }

  lemma BodyParses(pkgs: seq<Pkg>)
    requires forall p <- pkgs :: PkgOk(p)
    ensures Parse(PkgLines(pkgs) + ("\n" + FOOTER)) == pkgs
  {
    FooterParses();
    if pkgs == [] {
      assert PkgLines(pkgs) + ("\n" + FOOTER) == "" + ("\n" + FOOTER);
      PlainLine("" + "\n");
      SkipStep("", FOOTER);
    } else {
      forall i | 0 <= i < |pkgs|
        ensures NoNewline(EntryLines(pkgs)[i]) && |EntryLines(pkgs)[i]| < LINE_CAP
        ensures LineEntry(EntryLines(pkgs)[i] + "\n") == [pkgs[i]]
      {
        assert pkgs[i] in pkgs;
        EntryLineParses(pkgs[i], i < |pkgs| - 1);
      }
      EntriesText(pkgs, FOOTER);
      LinesRead(LineEntry, EntryLines(pkgs), pkgs, FOOTER);
    }
  }

  lemma PrintText(id: int, timestamp: int, pkgs: seq<Pkg>)
    ensures Print(id, timestamp, pkgs) == Header(id, timestamp) + (PkgLines(pkgs) + ("\n" + FOOTER))
  {
    assert "\n  ]\n" + "}\n" == "\n" + FOOTER;
  }

  /** The round trip: what was printed is read back exactly when every field fits. */
  lemma RoundTrip(id: int, timestamp: int, pkgs: seq<Pkg>)
    requires -0x8000_0000 <= id < 0x8000_0000 && -0x8000_0000_0000_0000 <= timestamp < 0x8000_0000_0000_0000
    ensures Parse(Print(id, timestamp, pkgs)) == pkgs <==> forall p <- pkgs :: PkgOk(p)
  {
    ParsedFits(Print(id, timestamp, pkgs));
    if forall p <- pkgs :: PkgOk(p) {
      PrintText(id, timestamp, pkgs);
      HeaderText(id, timestamp, PkgLines(pkgs) + ("\n" + FOOTER));
      HeaderLinesParse(id, timestamp, PkgLines(pkgs) + ("\n" + FOOTER));
      BodyParses(pkgs);
    }
  }

  // ---- the loops ----

  method PrintPkg(f: string, p: Pkg, first: bool) returns (more: string)
    ensures more == f + ((if first then "" else ",\n") + PkgText(p))
  {
    more := f;
    if !first {
      more := more + ",\n";
    }
    more := more + NamePart(p);
    if p.storePath.Some? {
      more := more + StorePart(p);
    }
    more := more + OriginPart(p);
    Regroup5(f, if first then "" else ",\n", NamePart(p), StorePart(p), OriginPart(p));
  }

  lemma Regroup5(a: string, b: string, c: string, d: string, e: string)
    ensures a + b + c + d + e == a + (b + (c + d + e))
  {
  }

  predicate IsDigits(s: string) {
    s != "" && (forall c <- s :: '0' <= c <= '9') && (|s| > 1 ==> s[0] != '0')
  }

  /** The number that a string of digits stands for. */
  function ValueOf(s: string): int {
    if s == "" then 0 else 10 * ValueOf(s[..|s| - 1]) + (s[|s| - 1] as int - '0' as int)
  }

  /** The decimal notation of a number: a minus sign if it is negative, and digits without a leading zero. */
  predicate IsDecimal(s: string, n: int) {
    if n < 0 then |s| > 1 && s[0] == '-' && IsDigits(s[1..]) && ValueOf(s[1..]) == -n
    else IsDigits(s) && ValueOf(s) == n
  }

  lemma DigitValue(d: nat)
    requires d < 10
    ensures '0' <= "0123456789"[d] <= '9' && "0123456789"[d] as int - '0' as int == d
  {
    if d == 0 {} else if d == 1 {} else if d == 2 {} else if d == 3 {} else if d == 4 {}
    else if d == 5 {} else if d == 6 {} else if d == 7 {} else if d == 8 {} else {}
  }

  lemma {:induction false} DecMeans(n: nat)
    ensures IsDigits(Dec(n)) && ValueOf(Dec(n)) == n && (n > 0 ==> Dec(n)[0] != '0')
  {
    DigitValue(n % 10);
    if n < 10 {
      DigitValue(n);
      assert Dec(n)[..0] == "";
    } else {
      DecMeans(n / 10);
      assert Dec(n)[..|Dec(n)| - 1] == Dec(n / 10);
    }
  }

  lemma {:induction false} PrintIntMeans(n: int)
    ensures IsDecimal(PrintInt(n), n)
  {
    DecMeans(if n < 0 then -n else n);
    if n < 0 {
      assert PrintInt(n)[1..] == Dec(-n);
    }
  }

  /** The whole file for two packages, one with a store path and one without. */
  lemma FileOfTwo(id: int, timestamp: int, n: string, v: string, s: string, o: string, n2: string, v2: string,
                  o2: string)
    ensures Print(id, timestamp, [Pkg(n, v, Some(s), o), Pkg(n2, v2, None, o2)]) ==
      ("{\n" + ("  \"id\": " + PrintInt(id) + ",\n") + ("  \"timestamp\": " + PrintInt(timestamp) + ",\n")
       + "  \"packages\": [\n")
      + (("    {\"name\": \"" + n + "\", \"version\": \"" + v + "\"" + (", \"store_path\": \"" + s + "\"")
          + (", \"origin\": \"" + o + "\"}"))
         + ",\n"
         + ("    {\"name\": \"" + n2 + "\", \"version\": \"" + v2 + "\"" + "" + (", \"origin\": \"" + o2 + "\"}")))
      + "\n  ]\n" + "}\n"
  {
    var p, q := Pkg(n, v, Some(s), o), Pkg(n2, v2, None, o2);
    assert [p, q][1..] == [q];
    assert PkgLines([p, q]) == PkgText(p) + ",\n" + PkgText(q);
  }

  /** The file begins with these decimal numbers. */
  predicate BeginsWith(f: string, id: int, timestamp: int, d: string, t: string) {
    && IsDecimal(d, id) && IsDecimal(t, timestamp)
    && "{\n" + ("  \"id\": " + d + ",\n") + ("  \"timestamp\": " + t + ",\n") <= f
  }

  method WriteManifest(id: int, timestamp: int, packages: seq<Pkg>) returns (f: string)
    ensures f == Print(id, timestamp, packages)
    ensures exists d, t :: BeginsWith(f, id, timestamp, d, t)
  {
    PrintIntMeans(id);
    PrintIntMeans(timestamp);
    f := "{\n";
    f := f + ("  \"id\": " + PrintInt(id) + ",\n");
    f := f + ("  \"timestamp\": " + PrintInt(timestamp) + ",\n");
    ghost var numbers := f;
    f := f + "  \"packages\": [\n";
    f := WritePackages(f, packages);
    f := f + "\n  ]\n";
    f := f + "}\n";
    assert numbers <= f && BeginsWith(f, id, timestamp, PrintInt(id), PrintInt(timestamp));
  }

  method WritePackages(header: string, packages: seq<Pkg>) returns (f: string)
    ensures f == header + PkgLines(packages)
  {
    f := header;
    var first := true;
    for i := 0 to |packages|
      invariant first <==> i == 0
      invariant f == header + PkgLines(packages[..i])
    {
      PkgLinesNext(packages, i);
      Regroup6(header, PkgLines(packages[..i]), (if first then "" else ",\n") + PkgText(packages[i]));
      f := PrintPkg(f, packages[i], first);
      first := false;
    }
    assert packages[..|packages|] == packages;
  }

  lemma Regroup6(a: string, b: string, c: string)
    ensures (a + b) + c == a + (b + c)
  {
  }

  lemma {:induction false} PkgLinesSnoc(pkgs: seq<Pkg>, p: Pkg)
    ensures PkgLines(pkgs + [p]) == PkgLines(pkgs) + ((if pkgs == [] then "" else ",\n") + PkgText(p))
  {
    if |pkgs| > 1 {
      assert (pkgs + [p])[1..] == pkgs[1..] + [p];
      PkgLinesSnoc(pkgs[1..], p);
    } else if |pkgs| == 1 {
      assert (pkgs + [p])[1..] == [p];
    } else {
      assert pkgs + [p] == [p];
    }
  }

  lemma PkgLinesNext(pkgs: seq<Pkg>, i: nat)
    requires i < |pkgs|
    ensures PkgLines(pkgs[..i + 1]) == PkgLines(pkgs[..i]) + ((if i == 0 then "" else ",\n") + PkgText(pkgs[i]))
  {
    assert pkgs[..i + 1] == pkgs[..i] + [pkgs[i]];
    PkgLinesSnoc(pkgs[..i], pkgs[i]);
  }

  /** One field: find the key, skip blanks and quotes, copy up to the next quote. */
  method ReadField(line: string, key: string, cap: nat) returns (v: Option<string>)
    requires cap > 0
    ensures v == Field(line, key, cap)
  {
    var start := After(line, Key(key));
    if start.None? {
      return None;
    }
    var s := start.value;
    while s != [] && (s[0] == ' ' || s[0] == '"')
      invariant SkipLead(s) == SkipLead(start.value)
    {
      s := s[1..];
    }
    var end := UntilQuote(s);
    if end.None? {
      return None;
    }
    v := Some(Cut(end.value, cap));
  }

  method ReadLine(line: string) returns (entry: seq<Pkg>)
    ensures entry == LineEntry(line)
  {
    var name := ReadField(line, "name", NAME_CAP);
    if name.None? {
      return [];
    }
    var version := ReadField(line, "version", VERSION_CAP);
    var store := ReadField(line, "store_path", STORE_CAP);
    var origin := ReadField(line, "origin", ORIGIN_CAP);
    entry := [Pkg(name.value, OrElse(version, "unknown"),
                  if OrElse(store, "") == "" then None else store, OrElse(origin, "repo"))];
  }

  /** The reading loop, whatever a line adds. */
  lemma ReadNext(entry: string -> seq<Pkg>, read: seq<Pkg>, rest: string, file: string)
    requires rest != [] && read + ReadLines(entry, rest) == ReadLines(entry, file)
    ensures var n := LineLength(rest, LINE_CAP);
      read + entry(rest[..n]) + ReadLines(entry, rest[n..]) == ReadLines(entry, file)
  {
  }

  method GenDbGet(file: string) returns (pkgs: seq<Pkg>)
    ensures pkgs == Parse(file)
  {
    pkgs := [];
    var rest := file;
    while rest != []
      invariant pkgs + ReadLines(LineEntry, rest) == ReadLines(LineEntry, file)
    {
      ReadNext(LineEntry, pkgs, rest, file);
      var n := LineLength(rest, LINE_CAP);
      var entry := ReadLine(rest[..n]);
      pkgs := pkgs + entry;
      rest := rest[n..];
    }
  }
}
