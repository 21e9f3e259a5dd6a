/** Reading back one printed line of the manifest, by its pieces between quotes. */
module ManifestLine {
  import opened Common
  import opened Manifest

  // ---- text as pieces between quotes ----

  function Join(ps: seq<string>): string {
    if ps == [] then "" else if |ps| == 1 then ps[0] else ps[0] + "\"" + Join(ps[1..])
  }

  ghost predicate Pieces(ps: seq<string>) {
    forall i :: 0 <= i < |ps| ==> NoQuote(ps[i])
  }

  /** The pieces start with a quoted key: something, the key, and a colon. */
  predicate KeyFirst(ps: seq<string>, key: string) {
    |ps| >= 3 && ps[1] == key && ps[2] != "" && ps[2][0] == ':'
  }

  function FindKey(ps: seq<string>, key: string): Option<seq<string>> {
    if |ps| < 3 then None
    else if KeyFirst(ps, key) then Some([ps[2][1..]] + ps[3..])
    else FindKey(ps[1..], key)
  }

  lemma {:induction false} AfterSkipsText(u: string, s: string, key: string)
    requires NoQuote(u) && (s != [] ==> s[0] == '"')
    ensures After(u + s, Key(key)) == After(s, Key(key))
  {
    if u == [] {
      assert u + s == s;
    } else {
      assert (u + s)[0] == u[0] && (u + s)[1..] == u[1..] + s;
      assert u[0] in u;
      assert Key(key)[0] == '"';
      AfterSkipsText(u[1..], s, key);
    }
  }

  lemma {:induction false} UntilQuoteStops(v: string, tail: string)
    requires NoQuote(v) && (tail != [] ==> tail[0] == '"')
    ensures UntilQuote(v + tail) == if tail == [] then None else Some(v)
  {
    if v == [] {
      assert v + tail == tail;
    } else {
      assert v[0] in v && (v + tail)[0] == v[0] && (v + tail)[1..] == v[1..] + tail;
      assert NoQuote(v[1..]);
      UntilQuoteStops(v[1..], tail);
      assert [v[0]] + v[1..] == v;
    }
  }

  lemma {:induction false} UntilQuotePrefix(a: string, b: string)
    requires a <= b && UntilQuote(a).Some?
    ensures UntilQuote(b) == UntilQuote(a)
  {
    if a[0] != '"' {
      UntilQuotePrefix(a[1..], b[1..]);
    }
  }

  /** A quote-free text up to its closing quote is a prefix of another only if it is the other. */
  lemma SameUpToQuote(k: string, kr: string, v: string, vr: string)
    requires NoQuote(k) && NoQuote(v)
    requires k + ("\"" + kr) <= v + vr && (vr != [] ==> vr[0] == '"')
    ensures k == v && vr != [] && kr <= vr[1..]
  {
    var a, b := k + ("\"" + kr), v + vr;
    UntilQuoteStops(k, "\"" + kr);
    UntilQuoteStops(v, vr);
    UntilQuotePrefix(a, b);
    assert b[|k| + 1..] == vr[1..] && a[|k| + 1..] == kr;
    assert b[|k| + 1..][..|kr|] == b[..|a|][|k| + 1..];
  }

  /** At a quote, the key is there exactly if the next pieces say so. */
  lemma KeyAtQuote(ps: seq<string>, key: string)
    requires |ps| >= 2 && Pieces(ps) && NoQuote(key)
    ensures Key(key) <= "\"" + Join(ps[1..]) <==> KeyFirst(ps, key)
    ensures KeyFirst(ps, key) ==> ("\"" + Join(ps[1..]))[|Key(key)|..] == Join([ps[2][1..]] + ps[3..])
  {
    if Key(key) <= "\"" + Join(ps[1..]) {
      KeyGivesPieces(ps, key);
    }
    if KeyFirst(ps, key) {
      PiecesGiveKey(ps, key);
    }
  }

  lemma KeyGivesPieces(ps: seq<string>, key: string)
    requires |ps| >= 2 && Pieces(ps) && NoQuote(key) && Key(key) <= "\"" + Join(ps[1..])
    ensures KeyFirst(ps, key)
  {
    var s := "\"" + Join(ps[1..]);
    var v := ps[1];
    var vr := if |ps| == 2 then "" else "\"" + Join(ps[2..]);
    assert ps[1..][1..] == ps[2..];
    assert Join(ps[1..]) == v + vr;
    assert s[1..] == v + vr;
    assert Key(key)[1..] == key + ("\"" + ":");
    assert s[..|Key(key)|] == Key(key);
    assert s[1..][..|key| + 2] == s[..|Key(key)|][1..];
    SameUpToQuote(key, ":", v, vr);
    assert |ps| >= 3 && Join(ps[2..])[0] == ':';
    assert ps[2..][1..] == ps[3..];
    assert Join(ps[2..]) == if |ps| == 3 then ps[2] else ps[2] + ("\"" + Join(ps[3..]));
  }

  lemma PiecesGiveKey(ps: seq<string>, key: string)
    requires KeyFirst(ps, key)
    ensures Key(key) <= "\"" + Join(ps[1..])
    ensures ("\"" + Join(ps[1..]))[|Key(key)|..] == Join([ps[2][1..]] + ps[3..])
  {
    var tail := [ps[2][1..]] + ps[3..];
    assert ps[1..][1..] == ps[2..] && ps[1..] != [] && |ps[1..]| > 1;
    assert ps[2] == ":" + ps[2][1..];
    assert ps[2..][1..] == ps[3..] && tail[1..] == ps[3..];
    assert Join(ps[2..]) == ":" + Join(tail);
    assert "\"" + Join(ps[1..]) == Key(key) + Join(tail);
  }

  lemma {:induction false} AfterJoin(ps: seq<string>, key: string)
    requires ps != [] && Pieces(ps) && NoQuote(key)
    ensures After(Join(ps), Key(key)) == match FindKey(ps, key) case None => None case Some(qs) => Some(Join(qs))
  {
    if |ps| == 1 {
      AfterSkipsText(ps[0], "", key);
      assert ps[0] + "" == ps[0];
    } else {
      var s := "\"" + Join(ps[1..]);
      assert Join(ps) == ps[0] + s;
      AfterSkipsText(ps[0], s, key);
      KeyAtQuote(ps, key);
      if !KeyFirst(ps, key) {
        assert s[1..] == Join(ps[1..]);
        AfterJoin(ps[1..], key);
        assert |ps| == 2 ==> FindKey(ps[1..], key) == None;
      }
    }
  }

  // ---- one line ----

  /** The pieces of `"key": "value"` followed by `sep`. */
  function Cell(key: string, value: string, sep: string): seq<string> {
    [key, ": ", value, sep]
  }

  lemma CellHit(u: string, key: string, value: string, sep: string, rest: seq<string>)
    ensures FindKey([u] + Cell(key, value, sep) + rest, key) == Some([" ", value, sep] + rest)
  {
    var ps := [u] + Cell(key, value, sep) + rest;
    assert ps[1] == key && ps[2] == ": ";
    assert ps[2][1..] == " ";
    assert ps[3..] == [value, sep] + rest;
    assert [" "] + ps[3..] == [" ", value, sep] + rest;
  }

  lemma CellMiss(u: string, k: string, value: string, sep: string, rest: seq<string>, key: string)
    requires k != key && key != ": " && sep != "" && sep[0] != ':' && sep != key
    ensures FindKey([u] + Cell(k, value, sep) + rest, key) == FindKey([sep] + rest, key)
  {
    var p0 := [u] + Cell(k, value, sep) + rest;
    var p1, p2, p3, p4 := p0[1..], p0[2..], p0[3..], p0[4..];
    assert p0[1] == k && p1[1] == ": " && p2[1] == value && p2[2] == sep && p3[1] == sep;
    assert p1 == p0[1..] && p2 == p1[1..] && p3 == p2[1..] && p4 == p3[1..] && p4 == [sep] + rest;
    assert FindKey(p0, key) == FindKey(p1, key) == FindKey(p2, key) == FindKey(p3, key);
    assert |rest| == 0 ==> FindKey(p3, key) == None && FindKey(p4, key) == None;
  }

  /** Reading a value back: the text after the key starts with a space and the quoted value. */
  lemma ReadValue(value: string, sep: string, rest: seq<string>, cap: nat)
    requires FieldOk(value, cap)
    ensures UntilQuote(SkipLead(Join([" ", value, sep] + rest))) == Some(value)
  {
    var ps := [" ", value, sep] + rest;
    assert ps[1..] == [value, sep] + rest && ps[1..][1..] == [sep] + rest;
    var tail := "\"" + Join([sep] + rest);
    assert Join(ps) == " \"" + (value + tail);
    var s := value + tail;
    assert (" \"" + s)[1..] == "\"" + s && ("\"" + s)[1..] == s;
    assert SkipLead("\"" + s) == SkipLead(s);
    assert SkipLead(" \"" + s) == SkipLead("\"" + s);
    assert value[0] in value && s[0] == value[0];
    assert SkipLead(s) == s;
    UntilQuoteStops(value, tail);
  }

  lemma JoinCell(u: string, k: string, v: string, sep: string, rest: seq<string>)
    ensures Join([u] + Cell(k, v, sep) + rest) == u + KeyText(k, v) + Join([sep] + rest)
  {
    var p0 := [u] + Cell(k, v, sep) + rest;
    var p1, p2, p3, p4 := p0[1..], p0[2..], p0[3..], p0[4..];
    assert p0[1] == k && p1[1] == ": " && p2[1] == v;
    assert p2 == p1[1..] && p3 == p2[1..] && p4 == p3[1..] && p4 == [sep] + rest;
    assert Join(p3) == v + "\"" + Join(p4);
    assert Join(p2) == ": " + "\"" + Join(p3);
    assert Join(p1) == k + "\"" + Join(p2);
    assert Join(p0) == u + "\"" + Join(p1);
  }

  function OriginCell(p: Pkg, tail: string): seq<string> {
    Cell("origin", p.origin, "}" + tail)
  }

  function StoreCells(p: Pkg, tail: string): seq<string> {
    if p.storePath.Some? then Cell("store_path", p.storePath.value, ", ") + OriginCell(p, tail) else OriginCell(p, tail)
  }

  function LinePieces(p: Pkg, tail: string): seq<string> {
    ["    {"] + Cell("name", p.name, ", ") + (Cell("version", p.version, ", ") + StoreCells(p, tail))
  }

  lemma OriginIsJoin(p: Pkg, tail: string)
    ensures Join([", "] + OriginCell(p, tail)) == OriginPart(p) + tail
  {
    JoinCell(", ", "origin", p.origin, "}" + tail, []);
    assert [", "] + OriginCell(p, tail) + [] == [", "] + OriginCell(p, tail);
    assert Join(["}" + tail] + []) == "}" + tail;
    OriginPartText(p);
  }

  lemma StoreIsJoin(p: Pkg, tail: string)
    ensures Join([", "] + StoreCells(p, tail)) == StorePart(p) + (OriginPart(p) + tail)
  {
    OriginIsJoin(p, tail);
    if p.storePath.Some? {
      JoinCell(", ", "store_path", p.storePath.value, ", ", OriginCell(p, tail));
      assert [", "] + Cell("store_path", p.storePath.value, ", ") + OriginCell(p, tail) == [", "] + StoreCells(p, tail);
      StorePartText(p);
    }
  }

  lemma NameIsJoin(p: Pkg, rest: seq<string>)
    ensures Join(["    {"] + Cell("name", p.name, ", ") + (Cell("version", p.version, ", ") + rest)) ==
      NamePart(p) + Join([", "] + rest)
  {
    var more := Cell("version", p.version, ", ") + rest;
    JoinCell("    {", "name", p.name, ", ", more);
    JoinCell(", ", "version", p.version, ", ", rest);
    assert [", "] + Cell("version", p.version, ", ") + rest == [", "] + more;
    NamePartText(p);
  }

  lemma LineIsJoin(p: Pkg, tail: string)
    ensures PkgText(p) + tail == Join(LinePieces(p, tail))
  {
    NameIsJoin(p, StoreCells(p, tail));
    StoreIsJoin(p, tail);
    Regroup(NamePart(p), StorePart(p), OriginPart(p), tail);
  }

  lemma Regroup(a: string, b: string, c: string, d: string)
    ensures a + b + c + d == a + (b + (c + d))
  {
  }

  /** A key and its quoted value. */
  function KeyText(key: string, value: string): string {
    "\"" + key + "\": \"" + value + "\""
  }

  lemma NamePartText(p: Pkg)
    ensures NamePart(p) == "    {" + KeyText("name", p.name) + (", " + KeyText("version", p.version))
  {
    assert "    {\"name\": \"" == "    {" + ("\"" + "name" + "\": \"");
    assert "\", \"version\": \"" == "\"" + (", " + ("\"" + "version" + "\": \""));
  }

  lemma StorePartText(p: Pkg)
    ensures StorePart(p) == if p.storePath.Some? then ", " + KeyText("store_path", p.storePath.value) else ""
  {
    assert ", \"store_path\": \"" == ", " + ("\"" + "store_path" + "\": \"");
  }

  lemma OriginPartText(p: Pkg)
    ensures OriginPart(p) == ", " + KeyText("origin", p.origin) + "}"
  {
    assert ", \"origin\": \"" == ", " + ("\"" + "origin" + "\": \"");
    assert "\"}" == "\"" + "}";
  }

  lemma LinePiecesClean(p: Pkg, tail: string)
    requires PkgOk(p) && NoQuote(tail)
    ensures Pieces(LinePieces(p, tail))
  {
  }

  /** Every field of a printed line is read back. */
  lemma LineRoundTrip(p: Pkg, tail: string)
    requires PkgOk(p) && NoQuote(tail)
    ensures ParseLine(PkgText(p) + tail) == Some(p)
  {
    var line := PkgText(p) + tail;
    var ps := LinePieces(p, tail);
    LineIsJoin(p, tail);
    LinePiecesClean(p, tail);
    var rest0 := Cell("version", p.version, ", ") + StoreCells(p, tail);
    var rest1 := StoreCells(p, tail);

    AfterJoin(ps, "name");
    CellHit("    {", "name", p.name, ", ", rest0);
    ReadValue(p.name, ", ", rest0, NAME_CAP);

    AfterJoin(ps, "version");
    CellMiss("    {", "name", p.name, ", ", rest0, "version");
    assert [", "] + rest0 == [", "] + Cell("version", p.version, ", ") + rest1;
    CellHit(", ", "version", p.version, ", ", rest1);
    ReadValue(p.version, ", ", rest1, VERSION_CAP);

    StoreRoundTrip(p, tail, ps, rest0, rest1);
    OriginRoundTrip(p, tail, ps, rest0, rest1);
  }

  lemma StoreRoundTrip(p: Pkg, tail: string, ps: seq<string>, rest0: seq<string>, rest1: seq<string>)
    requires PkgOk(p) && Pieces(ps) && ps == LinePieces(p, tail)
    requires rest0 == Cell("version", p.version, ", ") + rest1 && rest1 == StoreCells(p, tail)
    ensures Field(Join(ps), "store_path", STORE_CAP) == p.storePath
  {
    AfterJoin(ps, "store_path");
    CellMiss("    {", "name", p.name, ", ", rest0, "store_path");
    assert [", "] + rest0 == [", "] + Cell("version", p.version, ", ") + rest1;
    CellMiss(", ", "version", p.version, ", ", rest1, "store_path");
    if p.storePath.Some? {
      var rest2 := OriginCell(p, tail);
      assert [", "] + rest1 == [", "] + Cell("store_path", p.storePath.value, ", ") + rest2;
      CellHit(", ", "store_path", p.storePath.value, ", ", rest2);
      ReadValue(p.storePath.value, ", ", rest2, STORE_CAP);
    } else {
      assert [", "] + rest1 == [", "] + Cell("origin", p.origin, "}" + tail) + [];
      CellMiss(", ", "origin", p.origin, "}" + tail, [], "store_path");
    }
  }

  lemma OriginRoundTrip(p: Pkg, tail: string, ps: seq<string>, rest0: seq<string>, rest1: seq<string>)
    requires PkgOk(p) && Pieces(ps) && ps == LinePieces(p, tail)
    requires rest0 == Cell("version", p.version, ", ") + rest1 && rest1 == StoreCells(p, tail)
    ensures Field(Join(ps), "origin", ORIGIN_CAP) == Some(p.origin)
  {
    AfterJoin(ps, "origin");
    CellMiss("    {", "name", p.name, ", ", rest0, "origin");
    assert [", "] + rest0 == [", "] + Cell("version", p.version, ", ") + rest1;
    CellMiss(", ", "version", p.version, ", ", rest1, "origin");
    var rest2 := OriginCell(p, tail);
    if p.storePath.Some? {
      assert [", "] + rest1 == [", "] + Cell("store_path", p.storePath.value, ", ") + rest2;
      CellMiss(", ", "store_path", p.storePath.value, ", ", rest2, "origin");
    }
    assert [", "] + rest2 == [", "] + Cell("origin", p.origin, "}" + tail) + [];
    CellHit(", ", "origin", p.origin, "}" + tail, []);
    ReadValue(p.origin, "}" + tail, [], ORIGIN_CAP);
  }
}
