/** The hash index over a generation's manifest. */
module GenIndex {
  import opened Common

  const FNV_BASIS := 14695981039346656037
  const FNV_PRIME := 1099511628211

  /** The bytes of a C string. */
  type Text = seq<bv8>

  const UNKNOWN: Text := [0x75, 0x6e, 0x6b, 0x6e, 0x6f, 0x77, 0x6e]
  const REPO: Text := [0x72, 0x65, 0x70, 0x6f]

  /** An item of the manifest's array; a key may be missing or not be a string. */
  datatype Item = Item(name: Option<Text>, version: Option<Text>, storePath: Option<Text>, origin: Option<Text>)

  datatype Entry = Entry(name: Text, version: Text, storePath: Option<Text>, origin: Text, generation: int)

  /** The entries of a manifest, in order: items without a name are skipped, missing values defaulted. */
  function Entries(items: seq<Item>, generation: int): seq<Entry> {
    if items == [] then []
    else
      var rest, i := Entries(items[..|items| - 1], generation), items[|items| - 1];
      if i.name.None? then rest
      else
        rest + [Entry(i.name.value,
                      if i.version.Some? then i.version.value else UNKNOWN,
                      i.storePath,
                      if i.origin.Some? then i.origin.value else REPO,
                      generation)]
  }

  lemma {:induction false} NoMoreEntriesThanItems(items: seq<Item>, generation: int)
    ensures |Entries(items, generation)| <= |items|
  {
    if items != [] {
      NoMoreEntriesThanItems(items[..|items| - 1], generation);
    }
  }

  /** `at` lists the positions of the named items in order, and the entries are theirs. */
  ghost predicate ListsNamed(items: seq<Item>, generation: int, entries: seq<Entry>, at: seq<int>) {
    && |at| == |entries|
    && (forall j :: 0 <= j < |at| ==> 0 <= at[j] < |items| && items[at[j]].name.Some?)
    && (forall i, j :: 0 <= i < j < |at| ==> at[i] < at[j])
    && (forall k :: 0 <= k < |items| && items[k].name.Some? ==> k in at)
    && (forall j :: 0 <= j < |at| ==>
          var i, e := items[at[j]], entries[j];
          && e.name == i.name.value && e.generation == generation && e.storePath == i.storePath
          && e.version == (if i.version.Some? then i.version.value else UNKNOWN)
          && e.origin == (if i.origin.Some? then i.origin.value else REPO))
  }

  lemma {:induction false} NextNamed(items: seq<Item>, generation: int, entries: seq<Entry>, at: seq<int>)
    requires items != [] && ListsNamed(items[..|items| - 1], generation, entries, at)
    ensures
      var n := |items| - 1;
      var i := items[n];
      if i.name.None? then ListsNamed(items, generation, entries, at)
      else
        ListsNamed(items, generation,
          entries + [Entry(i.name.value, if i.version.Some? then i.version.value else UNKNOWN, i.storePath,
                           if i.origin.Some? then i.origin.value else REPO, generation)],
          at + [n])
  {
    var n := |items| - 1;
    var more := at + [n];
    assert forall k :: 0 <= k < n ==> items[..n][k] == items[k];
    forall k | 0 <= k < |items| && items[k].name.Some?
      ensures k in more && (items[n].name.None? ==> k in at)
    {
      if k == n {
        assert more[|at|] == n;
      }
    }
  }

  /** The entries are those of the named items, one each, in order. */
  lemma {:induction false} EntriesAreNamed(items: seq<Item>, generation: int) returns (at: seq<int>)
    ensures ListsNamed(items, generation, Entries(items, generation), at)
  {
    if items == [] {
      at := [];
    } else {
      var n := |items| - 1;
      at := EntriesAreNamed(items[..n], generation);
      NextNamed(items, generation, Entries(items[..n], generation), at);
      if items[n].name.Some? {
        at := at + [n];
      }
    }
  }

  /** The last entry of a name, if any. */
  function LastOf(entries: seq<Entry>, name: Text): Option<Entry> {
    if entries == [] then None
    else if entries[|entries| - 1].name == name then Some(entries[|entries| - 1])
    else LastOf(entries[..|entries| - 1], name)
  }

  // ---- the hash ----

  /** A 64-bit word; the exclusive or with a byte changes its low byte only, and the product wraps. */
  type word = h: int | 0 <= h < TWO_64

  function XorBytes(a: byte, c: bv8): byte {
    ((a as bv8) ^ c) as int
  }

  function WithLowByte(h: word, low: byte): word {
    h / 256 * 256 + low
  }

  function XorByte(h: word, c: bv8): word {
    WithLowByte(h, XorBytes(h % 256, c))
  }

  function TimesPrime(h: word): word {
    h * FNV_PRIME % TWO_64
  }

  function HashOf(s: Text): word {
    if s == [] then FNV_BASIS else TimesPrime(XorByte(HashOf(s[..|s| - 1]), s[|s| - 1]))
  }

  lemma XorVectors()
    ensures XorBytes(0x25, 0x61) == 0x44 && XorBytes(0x25, 0x66) == 0x43 && XorBytes(0xd9, 0x6f) == 0xb6
  {
    assert (0x25 as bv8) ^ 0x61 == 0x44 && (0x25 as bv8) ^ 0x66 == 0x43 && (0xd9 as bv8) ^ 0x6f == 0xb6;
  }

  lemma HashNext(s: Text, c: bv8, h: word, low: byte)
    requires HashOf(s) == h && XorBytes(h % 256, c) == low
    ensures HashOf(s + [c]) == (h - h % 256 + low) * FNV_PRIME % TWO_64
  {
    assert (s + [c])[..|s|] == s;
  }

  lemma Products()
    ensures (FNV_BASIS - 0x25 + 0x44) * FNV_PRIME % TWO_64 == 0xaf63dc4c8601ec8c
    ensures (FNV_BASIS - 0x25 + 0x43) * FNV_PRIME % TWO_64 == 0xaf63db4c8601ead9
    ensures (0xaf63db4c8601ead9 - 0xd9 + 0xb6) * FNV_PRIME % TWO_64 == 0x08985907b541d342
  {
  }

  /** Published test vectors of 64-bit FNV-1a: the empty string, "a", "f" and "fo". */
  lemma HashVectors(empty: Text, a: Text, f: Text, fo: Text)
    requires empty == [] && a == empty + [0x61] && f == empty + [0x66] && fo == f + [0x6f]
    ensures HashOf(empty) == 0xcbf29ce484222325
    ensures HashOf(a) == 0xaf63dc4c8601ec8c && HashOf(f) == 0xaf63db4c8601ead9
    ensures HashOf(fo) == 0x08985907b541d342
  {
    XorVectors();
    Products();
    HashNext(empty, 0x61, FNV_BASIS, 0x44);
    HashNext(empty, 0x66, FNV_BASIS, 0x43);
    HashNext(f, 0x6f, 0xaf63db4c8601ead9, 0xb6);
  }

  function Bucket(s: Text, buckets: nat): (b: nat)
    requires buckets > 0
    ensures b < buckets
  {
    HashOf(s) % buckets
  }

  method Fnv1aHash(s: Text, buckets: nat) returns (b: nat)
    requires buckets > 0
    ensures b == Bucket(s, buckets)
  {
    var hash: word := FNV_BASIS;
    for i := 0 to |s|
      invariant hash == HashOf(s[..i])
    {
      assert s[..i + 1][..i] == s[..i];
      hash := XorByte(hash, s[i]);
      hash := TimesPrime(hash);
    }
    assert s[..|s|] == s;
    b := hash % buckets;
  }

  // ---- the size ----

  function Pow2(k: nat): (p: nat)
    ensures p >= 1
  {
    if k == 0 then 1 else 2 * Pow2(k - 1)
  }

  /** The least power of two that is at least 16 and twice the count. */
  ghost predicate LeastSize(p: nat, n: nat) {
    && p >= 16 && p >= 2 * n
    && (exists k :: p == Pow2(k))
    && (p == 16 || p / 2 < 2 * n)
  }

  method NextPow2(n: nat) returns (p: nat)
    ensures LeastSize(p, n)
  {
    p := 16;
    ghost var k := 4;
    assert Pow2(4) == 16;
    while p < n * 2
      invariant p == Pow2(k) && p >= 16
      invariant p == 16 || p / 2 < n * 2
      decreases n * 2 - p
    {
      p := p * 2;
      k := k + 1;
    }
  }

  // ---- the chains ----

  /** The entries that hash to a bucket, newest first. */
  function Chain(entries: seq<Entry>, b: nat, buckets: nat): seq<Entry>
    requires buckets > 0
  {
    if entries == [] then []
    else
      var rest, e := Chain(entries[..|entries| - 1], b, buckets), entries[|entries| - 1];
      if Bucket(e.name, buckets) == b then [e] + rest else rest
  }

  function FirstNamed(chain: seq<Entry>, name: Text): Option<Entry> {
    if chain == [] then None
    else if chain[0].name == name then Some(chain[0])
    else FirstNamed(chain[1..], name)
  }

  /** The first match in a name's bucket is the last entry of that name in the whole manifest. */
  lemma {:induction false} BucketFindsLast(entries: seq<Entry>, name: Text, buckets: nat)
    requires buckets > 0
    ensures FirstNamed(Chain(entries, Bucket(name, buckets), buckets), name) == LastOf(entries, name)
  {
    if entries != [] {
      var init, e := entries[..|entries| - 1], entries[|entries| - 1];
      BucketFindsLast(init, name, buckets);
      var chain := Chain(init, Bucket(name, buckets), buckets);
      assert ([e] + chain)[1..] == chain;
    }
  }

  /** What is found is an entry of that name with no later one; nothing is found when no entry has it. */
  lemma {:induction false} LastOfIsLast(entries: seq<Entry>, name: Text)
    ensures match LastOf(entries, name)
      case None => forall e <- entries :: e.name != name
      case Some(e) => exists i ::
        && 0 <= i < |entries| && entries[i] == e && e.name == name
        && forall j :: i < j < |entries| ==> entries[j].name != name
  {
    if entries != [] && entries[|entries| - 1].name != name {
      var init := entries[..|entries| - 1];
      LastOfIsLast(init, name);
      if LastOf(init, name).Some? {
        var i :| 0 <= i < |init| && init[i] == LastOf(init, name).value && init[i].name == name
          && forall j :: i < j < |init| ==> init[j].name != name;
        assert entries[i] == init[i];
        forall j | i < j < |entries| ensures entries[j].name != name {
          assert j < |init| ==> init[j] == entries[j];
        }
      }
    }
  }

  function AllChains(entries: seq<Entry>, k: nat, buckets: nat): seq<Entry>
    requires buckets > 0
  {
    if k == 0 then [] else AllChains(entries, k - 1, buckets) + Chain(entries, k - 1, buckets)
  }

  lemma {:induction false} OneMoreEntry(entries: seq<Entry>, k: nat, buckets: nat)
    requires buckets > 0 && entries != []
    ensures var e := entries[|entries| - 1];
      multiset(AllChains(entries, k, buckets)) ==
      multiset(AllChains(entries[..|entries| - 1], k, buckets))
      + if Bucket(e.name, buckets) < k then multiset{e} else multiset{}
  {
    if k > 0 {
      OneMoreEntry(entries, k - 1, buckets);
    }
  }

  /** The buckets together hold every entry exactly once. */
  lemma {:induction false} ChainsHoldEachEntryOnce(entries: seq<Entry>, buckets: nat)
    requires buckets > 0
    ensures multiset(AllChains(entries, buckets, buckets)) == multiset(entries)
  {
    if entries == [] {
      NoEntries(buckets, buckets);
    } else {
      var init, e := entries[..|entries| - 1], entries[|entries| - 1];
      ChainsHoldEachEntryOnce(init, buckets);
      OneMoreEntry(entries, buckets, buckets);
      SplitLast(entries);
    }
  }

  lemma SplitLast(entries: seq<Entry>)
    requires entries != []
    ensures multiset(entries) == multiset(entries[..|entries| - 1]) + multiset{entries[|entries| - 1]}
  {
    assert entries == entries[..|entries| - 1] + [entries[|entries| - 1]];
  }

  lemma {:induction false} NoEntries(k: nat, buckets: nat)
    requires buckets > 0
    ensures AllChains([], k, buckets) == []
  {
    if k > 0 {
      NoEntries(k - 1, buckets);
    }
  }

  // ---- the table ----

  class Index {
    const buckets: array<seq<Entry>>
    var entryCount: nat
    /** The entries in the order of the manifest. */
    ghost var loaded: seq<Entry>

    ghost predicate Valid()
      reads this, buckets
    {
      && buckets.Length > 0
      && entryCount == |loaded|
      && forall b :: 0 <= b < buckets.Length ==> buckets[b] == Chain(loaded, b, buckets.Length)
    }

    constructor (size: nat)
      requires size > 0
      ensures Valid() && loaded == [] && fresh(buckets) && buckets.Length == size
    {
      buckets := new seq<Entry>[size](_ => []);
      entryCount, loaded := 0, [];
    }

    method Insert(e: Entry)
      requires Valid()
      modifies this, buckets
      ensures Valid() && loaded == old(loaded) + [e]
    {
      var b := Fnv1aHash(e.name, buckets.Length);
      buckets[b] := [e] + buckets[b];
      entryCount := entryCount + 1;
      loaded := loaded + [e];
      assert loaded[..|loaded| - 1] == old(loaded);
    }

    method Lookup(name: Text) returns (found: Option<Entry>)
      requires Valid()
      ensures found == LastOf(loaded, name)
    {
      var b := Fnv1aHash(name, buckets.Length);
      var chain := buckets[b];
      BucketFindsLast(loaded, name, buckets.Length);
      while chain != []
        invariant FirstNamed(chain, name) == LastOf(loaded, name)
      {
        if chain[0].name == name {
          return Some(chain[0]);
        }
        chain := chain[1..];
      }
      return None;
    }

    /** Hands every entry to the callback; `visited` is what it was handed. */
    method Foreach() returns (count: nat, visited: seq<Entry>)
      requires Valid()
      ensures multiset(visited) == multiset(loaded)
      ensures count == |visited| == |loaded|
    {
      count, visited := 0, [];
      for i := 0 to buckets.Length
        invariant visited == AllChains(loaded, i, buckets.Length) && count == |visited|
      {
        for j := 0 to |buckets[i]|
          invariant visited == AllChains(loaded, i, buckets.Length) + buckets[i][..j] && count == |visited|
        {
          visited := visited + [buckets[i][j]];
          count := count + 1;
        }
        assert buckets[i][..|buckets[i]|] == buckets[i];
      }
      ChainsHoldEachEntryOnce(loaded, buckets.Length);
      assert |multiset(visited)| == |multiset(loaded)|;
    }
  }

  /** `items` is the manifest's package array, if the file could be read and has one. */
  method Load(generation: int, items: Option<seq<Item>>) returns (index: Index?)
    ensures index == null <==> generation <= 0 || items.None? || items.value == []
    ensures index != null ==> fresh(index) && fresh(index.buckets) && index.Valid()
    ensures index != null ==> index.loaded == Entries(items.value, generation)
    ensures index != null ==> exists at :: ListsNamed(items.value, generation, index.loaded, at)
    ensures index != null ==> LeastSize(index.buckets.Length, |items.value|)
    ensures index != null ==> index.buckets.Length >= 16 && index.buckets.Length >= 2 * index.entryCount
  {
    if generation <= 0 || items.None? || items.value == [] {
      return null;
    }
    var arr := items.value;
    var size := NextPow2(|arr|);
    index := new Index(size);
    for k := 0 to |arr|
      invariant index != null && fresh(index) && fresh(index.buckets) && index.Valid()
      invariant index.buckets.Length == size
      invariant index.loaded == Entries(arr[..k], generation)
    {
      assert arr[..k + 1][..k] == arr[..k];
      var i := arr[k];
      if i.name.Some? {
        index.Insert(Entry(i.name.value,
                           if i.version.Some? then i.version.value else UNKNOWN,
                           i.storePath,
                           if i.origin.Some? then i.origin.value else REPO,
                           generation));
      }
    }
    assert arr[..|arr|] == arr;
    NoMoreEntriesThanItems(arr, generation);
    ghost var at := EntriesAreNamed(arr, generation);
  }
}
