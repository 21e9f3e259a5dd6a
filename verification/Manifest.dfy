/** The generation manifest: a hand-written printer and a hand-written line parser. */
module Manifest {
  import opened Common

  /** A package entry of a generation. */
  datatype Pkg = Pkg(name: string, version: string, storePath: Option<string>, origin: string)

  const NAME_CAP := 256
  const VERSION_CAP := 64
  const STORE_CAP := 4096
  const ORIGIN_CAP := 32
  const LINE_CAP := 8191

  // ---- the C string functions ----

  /** What follows the first occurrence of `pat`. */
  function After(s: string, pat: string): Option<string> {
    if pat <= s then Some(s[|pat|..])
    else if s == [] then None
    else After(s[1..], pat)
  }

  function SkipLead(s: string): string {
    if s != [] && (s[0] == ' ' || s[0] == '"') then SkipLead(s[1..]) else s
  }

  /** What precedes the first quote. */
  function UntilQuote(s: string): Option<string> {
    if s == [] then None
    else if s[0] == '"' then Some([])
    else match UntilQuote(s[1..])
      case None => None
      case Some(v) => Some([s[0]] + v)
  }

  function Cut(v: string, cap: nat): string
    requires cap > 0
  {
    if |v| >= cap then v[..cap - 1] else v
  }

  function Key(key: string): string {
    "\"" + key + "\":"
  }

  /** The value of a key on a line, cut to its buffer. */
  function Field(line: string, key: string, cap: nat): Option<string>
    requires cap > 0
  {
    match After(line, Key(key))
    case None => None
    case Some(rest) =>
      match UntilQuote(SkipLead(rest))
      case None => None
      case Some(v) => Some(Cut(v, cap))
  }

  function OrElse(v: Option<string>, default: string): string {
    if v.Some? then v.value else default
  }

  function ParseLine(line: string): Option<Pkg> {
    match Field(line, "name", NAME_CAP)
    case None => None
    case Some(name) =>
      var store := OrElse(Field(line, "store_path", STORE_CAP), "");
      Some(Pkg(name, OrElse(Field(line, "version", VERSION_CAP), "unknown"),
               if store == "" then None else Some(store),
               OrElse(Field(line, "origin", ORIGIN_CAP), "repo")))
  }

  /** How much of the file fgets takes: up to and with a newline, or a full buffer. */
  function LineLength(s: string, room: nat): (n: nat)
    ensures n <= |s| && n <= room
    ensures s != [] && room > 0 ==> n > 0
    ensures forall i :: 0 <= i < n - 1 ==> s[i] != '\n'
  {
    if s == [] || room == 0 then 0
    else if s[0] == '\n' then 1
    else 1 + LineLength(s[1..], room - 1)
  }

  /** The entry a line adds to the list, if it has one. */
  function LineEntry(line: string): seq<Pkg> {
    match ParseLine(line)
    case None => []
    case Some(p) => [p]
  }

  /** Reading a file line by line, with `entry` saying what a line adds to the list. */
  function ReadLines(entry: string -> seq<Pkg>, file: string): seq<Pkg> {
    if file == [] then []
    else
      var n := LineLength(file, LINE_CAP);
      entry(file[..n]) + ReadLines(entry, file[n..])
  }

  /** The package list the parser reads from a file. */
  function Parse(file: string): seq<Pkg> {
    ReadLines(LineEntry, file)
  }

  // ---- the printer ----

  function Dec(n: nat): string {
    if n < 10 then ["0123456789"[n]] else Dec(n / 10) + ["0123456789"[n % 10]]
  }

  function PrintInt(n: int): string {
    if n < 0 then "-" + Dec(-n) else Dec(n)
  }

  // one function per fprintf of an entry

  function NamePart(p: Pkg): string {
    "    {\"name\": \"" + p.name + "\", \"version\": \"" + p.version + "\""
  }

  function StorePart(p: Pkg): string {
    if p.storePath.Some? then ", \"store_path\": \"" + p.storePath.value + "\"" else ""
  }

  function OriginPart(p: Pkg): string {
    ", \"origin\": \"" + p.origin + "\"}"
  }

  function PkgText(p: Pkg): string {
    NamePart(p) + StorePart(p) + OriginPart(p)
  }

  function PkgLines(pkgs: seq<Pkg>): string {
    if pkgs == [] then ""
    else if |pkgs| == 1 then PkgText(pkgs[0])
    else PkgText(pkgs[0]) + ",\n" + PkgLines(pkgs[1..])
  }

  function Header(id: int, timestamp: int): string {
    "{\n" + ("  \"id\": " + PrintInt(id) + ",\n") + ("  \"timestamp\": " + PrintInt(timestamp) + ",\n")
    + "  \"packages\": [\n"
  }

  function Print(id: int, timestamp: int, pkgs: seq<Pkg>): string {
    Header(id, timestamp) + PkgLines(pkgs) + "\n  ]\n" + "}\n"
  }

  // ---- which packages survive ----

  predicate NoQuote(s: string) { '"' !in s }

  predicate FieldOk(v: string, cap: nat) {
    && v != "" && |v| < cap
    && v[0] != ' ' && NoQuote(v) && '\n' !in v
  }

  predicate PkgOk(p: Pkg) {
    && FieldOk(p.name, NAME_CAP) && FieldOk(p.version, VERSION_CAP) && FieldOk(p.origin, ORIGIN_CAP)
    && (p.storePath.Some? ==> FieldOk(p.storePath.value, STORE_CAP))
  }

  // ---- whatever is parsed has fields that fit ----

  /** No newline but possibly at the end. */
  predicate OneLine(s: string) {
    forall i :: 0 <= i < |s| - 1 ==> s[i] != '\n'
  }

  lemma {:induction false} AfterIsSuffix(s: string, pat: string)
    requires OneLine(s)
    ensures After(s, pat).Some? ==> OneLine(After(s, pat).value)
  {
    if pat <= s {
    } else if s != [] {
      AfterIsSuffix(s[1..], pat);
    }
  }

  lemma {:induction false} SkipLeadSkips(s: string)
    requires OneLine(s)
    ensures OneLine(SkipLead(s))
    ensures SkipLead(s) != [] ==> SkipLead(s)[0] != ' ' && SkipLead(s)[0] != '"'
  {
    if s != [] && (s[0] == ' ' || s[0] == '"') {
      SkipLeadSkips(s[1..]);
    }
  }

  lemma {:induction false} UntilQuoteClean(s: string)
    requires OneLine(s) && UntilQuote(s).Some?
    ensures var v := UntilQuote(s).value; |v| < |s| && s[..|v|] == v && NoQuote(v) && '\n' !in v
  {
    if s[0] != '"' {
      UntilQuoteClean(s[1..]);
    }
  }

  lemma FieldFits(line: string, key: string, cap: nat)
    requires OneLine(line) && cap > 1 && Field(line, key, cap).Some?
    ensures FieldOk(Field(line, key, cap).value, cap)
  {
    AfterIsSuffix(line, Key(key));
    var rest := After(line, Key(key)).value;
    SkipLeadSkips(rest);
    UntilQuoteClean(SkipLead(rest));
  }

  lemma ParsedLineFits(line: string)
    requires OneLine(line) && ParseLine(line).Some?
    ensures PkgOk(ParseLine(line).value)
  {
    FieldFits(line, "name", NAME_CAP);
    if Field(line, "version", VERSION_CAP).Some? { FieldFits(line, "version", VERSION_CAP); }
    if Field(line, "store_path", STORE_CAP).Some? { FieldFits(line, "store_path", STORE_CAP); }
    if Field(line, "origin", ORIGIN_CAP).Some? { FieldFits(line, "origin", ORIGIN_CAP); }
  }

  lemma EntryFits(line: string)
    requires OneLine(line)
    ensures forall p <- LineEntry(line) :: PkgOk(p)
  {
    if ParseLine(line).Some? {
      ParsedLineFits(line);
    }
  }

  lemma {:induction false} ParsedFits(file: string)
    ensures forall p <- Parse(file) :: PkgOk(p)
  {
    if file != [] {
      var n := LineLength(file, LINE_CAP);
      EntryFits(file[..n]);
      ParsedFits(file[n..]);
    }
  }
}
