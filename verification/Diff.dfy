/** The delta written beside each manifest: what was added, removed and changed since the parent. */
module Diff {
  import opened Common

  /** A package as the diff sees it. */
  datatype Entry = Entry(name: string, version: string)

  datatype Change = Change(name: string, before: string, after: string)

  /** The versions by name; a later entry of the list wins. */
  function Versions(pkgs: seq<Entry>): map<string, string> {
    if pkgs == [] then map[]
    else Versions(pkgs[..|pkgs| - 1])[pkgs[|pkgs| - 1].name := pkgs[|pkgs| - 1].version]
  }

  function EntryNames(s: seq<Entry>): set<string> {
    if s == [] then {} else EntryNames(s[..|s| - 1]) + {s[|s| - 1].name}
  }

  predicate DistinctNames(s: seq<Entry>) {
    s == [] || (DistinctNames(s[..|s| - 1]) && s[|s| - 1].name !in EntryNames(s[..|s| - 1]))
  }

  // ---- the three lists ----

  function Added(pkgs: seq<Entry>, parent: map<string, string>): seq<Entry> {
    if pkgs == [] then []
    else
      var p := pkgs[|pkgs| - 1];
      var rest := Added(pkgs[..|pkgs| - 1], parent);
      if p.name in parent then rest else rest + [p]
  }

  function Removed(parent: seq<Entry>, names: set<string>): seq<Entry> {
    if parent == [] then []
    else
      var p := parent[|parent| - 1];
      var rest := Removed(parent[..|parent| - 1], names);
      if p.name in names then rest else rest + [p]
  }

  function Changed(pkgs: seq<Entry>, parent: map<string, string>): seq<Change> {
    if pkgs == [] then []
    else
      var p := pkgs[|pkgs| - 1];
      var rest := Changed(pkgs[..|pkgs| - 1], parent);
      if p.name in parent && parent[p.name] != p.version then rest + [Change(p.name, parent[p.name], p.version)]
      else rest
  }

  function ChangedVersions(s: seq<Change>): map<string, string> {
    if s == [] then map[] else ChangedVersions(s[..|s| - 1])[s[|s| - 1].name := s[|s| - 1].after]
  }

  /** Applying a diff to the parent's versions. */
  function Patch(parent: map<string, string>, added: seq<Entry>, removed: seq<Entry>,
      changed: seq<Change>): map<string, string> {
    (parent - EntryNames(removed)) + Versions(added) + ChangedVersions(changed)
  }

  // ---- what the lists say ----

  /** A name stands for the version of its last entry. */
  lemma {:induction false} VersionsIsLast(pkgs: seq<Entry>, i: nat)
    requires i < |pkgs| && forall j :: i < j < |pkgs| ==> pkgs[j].name != pkgs[i].name
    ensures pkgs[i].name in Versions(pkgs) && Versions(pkgs)[pkgs[i].name] == pkgs[i].version
  {
    if i < |pkgs| - 1 {
      var init := pkgs[..|pkgs| - 1];
      assert init[i] == pkgs[i];
      assert forall j :: i < j < |init| ==> init[j] == pkgs[j];
      VersionsIsLast(init, i);
    }
  }

  lemma {:induction false} NamedBy(s: seq<Entry>, name: string)
    ensures name in EntryNames(s) <==> exists e :: e in s && e.name == name
  {
    if s != [] {
      var init, last := s[..|s| - 1], s[|s| - 1];
      NamedBy(init, name);
      assert s == init + [last];
      assert last in s;
    }
  }

  lemma {:induction false} AddedMembers(pkgs: seq<Entry>, parent: map<string, string>)
    ensures forall e :: e in Added(pkgs, parent) <==> e in pkgs && e.name !in parent
  {
    if pkgs != [] {
      AddedMembers(pkgs[..|pkgs| - 1], parent);
      assert pkgs == pkgs[..|pkgs| - 1] + [pkgs[|pkgs| - 1]];
    }
  }

  lemma {:induction false} RemovedMembers(parent: seq<Entry>, names: set<string>)
    ensures forall e :: e in Removed(parent, names) <==> e in parent && e.name !in names
  {
    if parent != [] {
      RemovedMembers(parent[..|parent| - 1], names);
      assert parent == parent[..|parent| - 1] + [parent[|parent| - 1]];
    }
  }

  lemma {:induction false} VersionsKeys(pkgs: seq<Entry>)
    ensures Versions(pkgs).Keys == EntryNames(pkgs)
  {
    if pkgs != [] {
      VersionsKeys(pkgs[..|pkgs| - 1]);
    }
  }

  lemma Appended(s: seq<Entry>, p: Entry)
    ensures EntryNames(s + [p]) == EntryNames(s) + {p.name}
    ensures DistinctNames(s + [p]) <==> DistinctNames(s) && p.name !in EntryNames(s)
    ensures Versions(s + [p]) == Versions(s)[p.name := p.version]
  {
    assert (s + [p])[..|s|] == s;
  }

  lemma {:induction false} AddedDelta(pkgs: seq<Entry>, parent: map<string, string>)
    requires DistinctNames(pkgs)
    ensures forall n :: n in Versions(Added(pkgs, parent)) <==> n in Versions(pkgs) && n !in parent
    ensures forall n :: n in Versions(Added(pkgs, parent)) ==> Versions(Added(pkgs, parent))[n] == Versions(pkgs)[n]
    ensures DistinctNames(Added(pkgs, parent))
  {
    if pkgs != [] {
      var init, p := pkgs[..|pkgs| - 1], pkgs[|pkgs| - 1];
      AddedDelta(init, parent);
      VersionsKeys(init);
      VersionsKeys(Added(init, parent));
      Appended(Added(init, parent), p);
    }
  }

  lemma {:induction false} RemovedDelta(parent: seq<Entry>, names: set<string>)
    ensures EntryNames(Removed(parent, names)) == EntryNames(parent) - names
    ensures DistinctNames(parent) ==> DistinctNames(Removed(parent, names))
  {
    if parent != [] {
      var init, p := parent[..|parent| - 1], parent[|parent| - 1];
      RemovedDelta(init, names);
      Appended(Removed(init, names), p);
    }
  }

  lemma {:induction false} ChangedDelta(pkgs: seq<Entry>, parent: map<string, string>)
    requires DistinctNames(pkgs)
    ensures forall n :: n in ChangedVersions(Changed(pkgs, parent)) <==>
      n in Versions(pkgs) && n in parent && parent[n] != Versions(pkgs)[n]
    ensures forall n :: n in ChangedVersions(Changed(pkgs, parent)) ==>
      ChangedVersions(Changed(pkgs, parent))[n] == Versions(pkgs)[n]
  {
    if pkgs != [] {
      var init, p := pkgs[..|pkgs| - 1], pkgs[|pkgs| - 1];
      ChangedDelta(init, parent);
      VersionsKeys(init);
      var c := Changed(init, parent);
      if p.name in parent {
        var q := Change(p.name, parent[p.name], p.version);
        assert (c + [q])[..|c|] == c;
      }
    }
  }

  lemma {:induction false} ChangedFrom(pkgs: seq<Entry>, parent: map<string, string>)
    ensures forall c <- Changed(pkgs, parent) :: c.name in parent && c.before == parent[c.name] != c.after
  {
    if pkgs != [] {
      ChangedFrom(pkgs[..|pkgs| - 1], parent);
    }
  }

  lemma {:induction false} NamesCount(s: seq<Entry>)
    requires DistinctNames(s)
    ensures |EntryNames(s)| == |s|
  {
    if s != [] {
      NamesCount(s[..|s| - 1]);
    }
  }

  /** A faithful delta: patching the parent gives exactly the child, no name is in two lists, what is removed was
      there with that version, every change tells the parent's version, and the counts add up. */
  ghost predicate Delta(parent: seq<Entry>, child: seq<Entry>, added: seq<Entry>, removed: seq<Entry>,
      changed: seq<Change>) {
    && Patch(Versions(parent), added, removed, changed) == Versions(child)
    && EntryNames(added) !! EntryNames(removed)
    && EntryNames(added) !! ChangedVersions(changed).Keys
    && EntryNames(removed) !! ChangedVersions(changed).Keys
    && (forall e <- removed :: e in parent)
    && (forall c <- changed :: c.name in Versions(parent) && c.before == Versions(parent)[c.name] != c.after)
    && (DistinctNames(parent) ==> |parent| - |removed| + |added| == |child|)
  }

  /** The removed entries may be listed in any order of the parent. */
  lemma DiffIsDelta(parent: seq<Entry>, shuffled: seq<Entry>, child: seq<Entry>)
    requires EntryNames(shuffled) == EntryNames(parent) && forall e <- shuffled :: e in parent
    requires DistinctNames(parent) ==> DistinctNames(shuffled)
    requires DistinctNames(child)
    ensures Delta(parent, child, Added(child, Versions(parent)), Removed(shuffled, EntryNames(child)),
                  Changed(child, Versions(parent)))
  {
    var pm, names := Versions(parent), EntryNames(child);
    var a, r, c := Added(child, pm), Removed(shuffled, names), Changed(child, pm);
    ListsSplitNames(parent, shuffled, child);
    ChangedFrom(child, pm);
    RemovedMembers(shuffled, names);
    PatchedMap(pm, Versions(child), Versions(a), EntryNames(r), ChangedVersions(c));
    if DistinctNames(parent) {
      CountsAddUp(parent, child, a, r);
    }
  }

  lemma ListsSplitNames(parent: seq<Entry>, shuffled: seq<Entry>, child: seq<Entry>)
    requires EntryNames(shuffled) == EntryNames(parent)
    requires DistinctNames(parent) ==> DistinctNames(shuffled)
    requires DistinctNames(child)
    ensures var pm, cm := Versions(parent), Versions(child);
      var a, r, c := Added(child, pm), Removed(shuffled, EntryNames(child)), Changed(child, pm);
      && pm.Keys == EntryNames(parent) && cm.Keys == EntryNames(child)
      && EntryNames(a) == Versions(a).Keys == cm.Keys - pm.Keys
      && EntryNames(r) == pm.Keys - cm.Keys
      && DistinctNames(a)
      && (DistinctNames(parent) ==> DistinctNames(r))
      && (forall n :: n in Versions(a) ==> Versions(a)[n] == cm[n])
      && (forall n :: n in ChangedVersions(c) <==> n in cm && n in pm && pm[n] != cm[n])
      && (forall n :: n in ChangedVersions(c) ==> ChangedVersions(c)[n] == cm[n])
  {
    VersionsKeys(parent);
    VersionsKeys(child);
    VersionsKeys(Added(child, Versions(parent)));
    AddedDelta(child, Versions(parent));
    RemovedDelta(shuffled, EntryNames(child));
    ChangedDelta(child, Versions(parent));
  }

  lemma CountsAddUp(parent: seq<Entry>, child: seq<Entry>, added: seq<Entry>, removed: seq<Entry>)
    requires DistinctNames(parent) && DistinctNames(child) && DistinctNames(added) && DistinctNames(removed)
    requires EntryNames(added) == EntryNames(child) - EntryNames(parent)
    requires EntryNames(removed) == EntryNames(parent) - EntryNames(child)
    ensures |parent| - |removed| + |added| == |child|
  {
    NamesCount(parent);
    NamesCount(child);
    NamesCount(added);
    NamesCount(removed);
    SetCounts(EntryNames(parent), EntryNames(child));
  }

  lemma SetCounts(before: set<string>, after: set<string>)
    ensures |before| - |before - after| + |after - before| == |after|
  {
    assert before == (before - after) + (before * after);
    assert after == (after - before) + (before * after);
  }

  lemma PatchedMap(parent: map<string, string>, child: map<string, string>, added: map<string, string>,
      removed: set<string>, changed: map<string, string>)
    requires forall n :: n in added <==> n in child && n !in parent
    requires forall n :: n in added ==> added[n] == child[n]
    requires removed == parent.Keys - child.Keys
    requires forall n :: n in changed <==> n in child && n in parent && parent[n] != child[n]
    requires forall n :: n in changed ==> changed[n] == child[n]
    ensures (parent - removed) + added + changed == child
  {
  }

  // ---- the loops ----

  /** The version of the first entry with this name. */
  function FirstVersion(list: seq<Entry>, name: string): Option<string> {
    if list == [] then None
    else
      var init, p := list[..|list| - 1], list[|list| - 1];
      if name in EntryNames(init) then FirstVersion(init, name)
      else if p.name == name then Some(p.version)
      else None
  }

  lemma {:induction false} FirstVersionNames(list: seq<Entry>, name: string)
    ensures FirstVersion(list, name).Some? <==> name in EntryNames(list)
  {
    if list != [] {
      FirstVersionNames(list[..|list| - 1], name);
    }
  }

  method FindVersion(list: seq<Entry>, name: string) returns (v: Option<string>)
    ensures v == FirstVersion(list, name)
    ensures v.Some? <==> name in EntryNames(list)
  {
    FirstVersionNames(list, name);
    for i := 0 to |list|
      invariant name !in EntryNames(list[..i])
    {
      assert list[..i + 1][..i] == list[..i];
      if list[i].name == name {
        FirstVersionStays(list, i + 1, name);
        return Some(list[i].version);
      }
    }
    assert list[..|list|] == list;
    return None;
  }

  /** Later entries do not hide an earlier one. */
  lemma {:induction false} FirstVersionStays(list: seq<Entry>, k: nat, name: string)
    requires k <= |list| && name in EntryNames(list[..k])
    ensures name in EntryNames(list) && FirstVersion(list, name) == FirstVersion(list[..k], name)
  {
    if k < |list| {
      var init := list[..|list| - 1];
      assert init[..k] == list[..k];
      FirstVersionStays(init, k, name);
    } else {
      assert list[..k] == list;
    }
  }

  function Reverse(s: seq<Entry>): seq<Entry> {
    if s == [] then [] else [s[|s| - 1]] + Reverse(s[..|s| - 1])
  }

  lemma {:induction false} Prepended(p: Entry, s: seq<Entry>)
    ensures EntryNames([p] + s) == {p.name} + EntryNames(s)
    ensures DistinctNames([p] + s) <==> DistinctNames(s) && p.name !in EntryNames(s)
    ensures forall n :: FirstVersion([p] + s, n) == if n == p.name then Some(p.version) else FirstVersion(s, n)
  {
    if s == [] {
      assert ([p] + s)[..0] == [];
    } else {
      assert ([p] + s)[..|s|] == [p] + s[..|s| - 1];
      Prepended(p, s[..|s| - 1]);
    }
  }

  /** The parent list is loaded back to front, so its first match is the file's last. */
  lemma {:induction false} FirstOfReverse(s: seq<Entry>)
    ensures EntryNames(Reverse(s)) == EntryNames(s)
    ensures DistinctNames(s) ==> DistinctNames(Reverse(s))
    ensures forall n :: FirstVersion(Reverse(s), n) == if n in Versions(s) then Some(Versions(s)[n]) else None
  {
    if s != [] {
      FirstOfReverse(s[..|s| - 1]);
      Prepended(s[|s| - 1], Reverse(s[..|s| - 1]));
    }
  }

  lemma {:induction false} ReverseHoldsSame(s: seq<Entry>)
    ensures forall e :: e in Reverse(s) <==> e in s
  {
    if s != [] {
      ReverseHoldsSame(s[..|s| - 1]);
      assert s == s[..|s| - 1] + [s[|s| - 1]];
    }
  }

  /** Which entries the three loops list, in terms of the two lists alone. */
  lemma {:induction false} ListsMean(file: seq<Entry>, packages: seq<Entry>)
    ensures forall e :: e in Added(packages, Versions(file)) <==> e in packages && forall f <- file :: f.name != e.name
    ensures forall e :: e in Removed(Reverse(file), EntryNames(packages)) <==>
      e in file && forall p <- packages :: p.name != e.name
  {
    AddedMembers(packages, Versions(file));
    RemovedMembers(Reverse(file), EntryNames(packages));
    ReverseHoldsSame(file);
    VersionsKeys(file);
    forall e: Entry ensures e.name in Versions(file) <==> exists f :: f in file && f.name == e.name {
      NamedBy(file, e.name);
    }
    forall e: Entry ensures e.name in EntryNames(packages) <==> exists p :: p in packages && p.name == e.name {
      NamedBy(packages, e.name);
    }
  }

  method LoadParent(file: seq<Entry>) returns (parent: seq<Entry>)
    ensures parent == Reverse(file)
  {
    parent := [];
    for i := 0 to |file|
      invariant parent == Reverse(file[..i])
    {
      assert file[..i + 1][..i] == file[..i];
      parent := [file[i]] + parent;
    }
    assert file[..|file|] == file;
  }

  /** The three loops of the diff writer. The removed list follows the loaded order of the parent. */
  method WriteDiff(file: seq<Entry>, packages: seq<Entry>)
    returns (total: nat, added: seq<Entry>, removed: seq<Entry>, changed: seq<Change>)
    ensures total == |packages|
    ensures added == Added(packages, Versions(file))
    ensures removed == Removed(Reverse(file), EntryNames(packages))
    ensures changed == Changed(packages, Versions(file))
    // new names with their versions, gone names with the versions they had
    ensures forall e :: e in added <==> e in packages && forall f <- file :: f.name != e.name
    ensures forall e :: e in removed <==> e in file && forall p <- packages :: p.name != e.name
    ensures DistinctNames(packages) ==> Delta(file, packages, added, removed, changed)
  {
    var parent := LoadParent(file);
    FirstOfReverse(file);
    total, added, removed, changed := 0, [], [], [];
    for i := 0 to |packages|
      invariant total == i && added == Added(packages[..i], Versions(file))
    {
      assert packages[..i + 1][..i] == packages[..i];
      total := total + 1;
      var found := FindVersion(parent, packages[i].name);
      if found.None? {
        added := added + [packages[i]];
      }
    }
    for i := 0 to |parent|
      invariant removed == Removed(parent[..i], EntryNames(packages))
    {
      assert parent[..i + 1][..i] == parent[..i];
      var found := FindVersion(packages, parent[i].name);
      if found.None? {
        removed := removed + [parent[i]];
      }
    }
    for i := 0 to |packages|
      invariant changed == Changed(packages[..i], Versions(file))
    {
      assert packages[..i + 1][..i] == packages[..i];
      var found := FindVersion(parent, packages[i].name);
      if found.Some? && found.value != packages[i].version {
        changed := changed + [Change(packages[i].name, found.value, packages[i].version)];
      }
    }
    assert packages[..|packages|] == packages && parent[..|parent|] == parent;
    ListsMean(file, packages);
    if DistinctNames(packages) {
      ReverseHoldsSame(file);
      DiffIsDelta(file, parent, packages);
    }
  }
}
