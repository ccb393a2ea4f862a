/**
 * The language table both src/config.rs (`Config::default`) and
 * src/calculator.rs (the `MANAGER` static) build with the `language!` macro:
 * each invocation inserts the language under its name and then maps each of
 * its extensions to that name. Inserting an existing key replaces its value,
 * as `HashMap::insert` does, so later invocations win.
 */
module Registry {
  import opened Wrappers
  import opened Language

  /** The two maps: language name to profile, extension to language name. */
  datatype Table = Table(languages: map<string, Info>, extToName: map<string, string>)

  /** `for e in ext { ext_to_name.insert(e, name) }`. */
  function AddExtensions(m: map<string, string>, exts: seq<string>, name: string): (r: map<string, string>)
    ensures m.Keys <= r.Keys
    ensures forall e :: e in exts ==> e in r && r[e] == name
    decreases |exts|
  {
    if exts == [] then m
    else AddExtensions(m, exts[..|exts| - 1], name)[exts[|exts| - 1] := name]
  }

  /** One `language!` invocation. */
  function Register(t: Table, info: Info): (r: Table)
    ensures info.name in r.languages && r.languages[info.name] == info
    ensures forall e :: e in info.fileExt ==> Lookup(r, e) == Some(info)
    ensures t.languages.Keys <= r.languages.Keys && t.extToName.Keys <= r.extToName.Keys
  {
    Table(t.languages[info.name := info], AddExtensions(t.extToName, info.fileExt, info.name))
  }

  /** The table after the invocations `entries`, in order. */
  function Built(entries: seq<Info>): (r: Table)
    ensures entries == [] ==> r == Table(map[], map[])
    ensures entries != [] ==> var last := entries[|entries| - 1]; last.name in r.languages && r.languages[last.name] == last
    decreases |entries|
  {
    if entries == [] then Table(map[], map[])
    else Register(Built(entries[..|entries| - 1]), entries[|entries| - 1])
  }

  /** Fills the two maps by repeated insertion, one invocation after the other. */
  method Build(entries: seq<Info>) returns (t: Table)
    ensures t == Built(entries)
  {
    var languages: map<string, Info> := map[];
    var extToName: map<string, string> := map[];
    for i := 0 to |entries|
      invariant Table(languages, extToName) == Built(entries[..i])
    {
      assert entries[..i + 1][..i] == entries[..i];
      var info := entries[i];
      languages := languages[info.name := info];
      ghost var before := extToName;
      for j := 0 to |info.fileExt|
        invariant extToName == AddExtensions(before, info.fileExt[..j], info.name)
      {
        assert info.fileExt[..j + 1][..j] == info.fileExt[..j];
        extToName := extToName[info.fileExt[j] := info.name];
      }
      assert info.fileExt[..|info.fileExt|] == info.fileExt;
    }
    assert entries[..|entries|] == entries;
    t := Table(languages, extToName);
  }

  /** `ext_to_name.get(ext).and_then(|name| languages.get(name))`. */
  function Lookup(t: Table, ext: string): (r: Option<Info>)
    ensures ext !in t.extToName ==> r == None
    ensures r.Some? ==> r.value in t.languages.Values
  {
    if ext in t.extToName && t.extToName[ext] in t.languages
    then Some(t.languages[t.extToName[ext]])
    else None
  }

  /** Names are unique among the invocations. */
  predicate UniqueNames(entries: seq<Info>) {
    forall i, j :: 0 <= i < j < |entries| ==> entries[i].name != entries[j].name
  }

  /** No extension is listed by two invocations. */
  predicate DisjointExtensions(entries: seq<Info>) {
    forall i, j, e :: 0 <= i < j < |entries| && e in entries[i].fileExt ==> e !in entries[j].fileExt
  }

  // ---------------------------------------------------------------------------

  /** Mapping the extensions `exts` to `name` adds exactly those keys, with that value. */
  lemma {:induction false} AddExtensionsSpec(m: map<string, string>, exts: seq<string>, name: string, k: string)
    ensures k in AddExtensions(m, exts, name) <==> k in m || k in exts
    ensures k in exts ==> AddExtensions(m, exts, name)[k] == name
    ensures k !in exts && k in m ==> AddExtensions(m, exts, name)[k] == m[k]
    decreases |exts|
  {
    if exts != [] {
      var init := exts[..|exts| - 1];
      AddExtensionsSpec(m, init, name, k);
      assert k in exts <==> k in init || k == exts[|exts| - 1] by {
        assert exts == init + [exts[|exts| - 1]];
      }
    }
  }

  /** Every profile in the table is stored under its own name and is one of the invocations. */
  lemma {:induction false} BuiltStoresUnderName(entries: seq<Info>, name: string)
    requires name in Built(entries).languages
    ensures Built(entries).languages[name].name == name
    ensures Built(entries).languages[name] in entries
    decreases |entries|
  {
    if entries != [] {
      var init := entries[..|entries| - 1];
      if name != entries[|entries| - 1].name {
        BuiltStoresUnderName(init, name);
      }
    }
  }

  /** An extension is registered exactly when some invocation lists it. */
  lemma {:induction false} BuiltExtensions(entries: seq<Info>, ext: string)
    ensures ext in Built(entries).extToName <==> exists i :: 0 <= i < |entries| && ext in entries[i].fileExt
    decreases |entries|
  {
    if entries != [] {
      var n := |entries| - 1;
      var init := entries[..n];
      BuiltExtensions(init, ext);
      AddExtensionsSpec(Built(init).extToName, entries[n].fileExt, entries[n].name, ext);
      if ext in Built(entries).extToName && ext !in entries[n].fileExt {
        var i :| 0 <= i < n && ext in init[i].fileExt;
        assert entries[i] == init[i];
      }
      if exists i :: 0 <= i < |entries| && ext in entries[i].fileExt {
        var i :| 0 <= i < |entries| && ext in entries[i].fileExt;
        if i < n {
          assert init[i] == entries[i];
        }
      }
    }
  }

  /** An extension that no invocation lists is not found. */
  lemma UnlistedNotFound(entries: seq<Info>, ext: string)
    requires forall j | 0 <= j < |entries| :: ext !in entries[j].fileExt
    ensures Lookup(Built(entries), ext) == None
  {
    BuiltExtensions(entries, ext);
  }

  /**
   * An extension listed by invocation `i` resolves to that invocation's
   * profile, provided no later invocation lists the extension again or reuses
   * the name.
   */
  lemma {:induction false} LastListingWins(entries: seq<Info>, ext: string, i: nat)
    requires i < |entries| && ext in entries[i].fileExt
    requires forall e :: e in entries[i + 1..] ==> ext !in e.fileExt && e.name != entries[i].name
    ensures Lookup(Built(entries), ext) == Some(entries[i])
    decreases |entries|
  {
    var n := |entries| - 1;
    var init := entries[..n];
    var last := entries[n];
    AddExtensionsSpec(Built(init).extToName, last.fileExt, last.name, ext);
    assert Built(entries) == Register(Built(init), last);
    if i < n {
      assert init[i + 1..] + [last] == entries[i + 1..];
      assert last in entries[i + 1..];
      forall e | e in init[i + 1..] ensures ext !in e.fileExt && e.name != init[i].name {
        assert e in entries[i + 1..];
      }
      LastListingWins(init, ext, i);
      var name := Built(init).extToName[ext];
      BuiltStoresUnderName(init, name);
      assert name == entries[i].name != last.name;
    }
  }

  /**
   * With unique names, a profile found for an extension lists that extension
   * among its own.
   */
  lemma FoundProfileListsExtension(entries: seq<Info>, ext: string)
    requires UniqueNames(entries)
    requires Lookup(Built(entries), ext).Some?
    ensures ext in Lookup(Built(entries), ext).value.fileExt
  {
    BuiltExtensions(entries, ext);
    var i := LastListing(entries, ext).value;
    forall e | e in entries[i + 1..] ensures ext !in e.fileExt && e.name != entries[i].name {
      var j :| 0 <= j < |entries[i + 1..]| && entries[i + 1..][j] == e;
      assert e == entries[i + 1 + j];
    }
    LastListingWins(entries, ext, i);
  }

  /** Index of the last invocation listing `ext`, if any. */
  function LastListing(entries: seq<Info>, ext: string): (r: Option<nat>)
    ensures r.Some? ==> r.value < |entries| && ext in entries[r.value].fileExt
    ensures r.Some? ==> forall j :: r.value < j < |entries| ==> ext !in entries[j].fileExt
    ensures r.None? ==> forall j :: 0 <= j < |entries| ==> ext !in entries[j].fileExt
  {
    if entries == [] then None
    else if ext in entries[|entries| - 1].fileExt then Some(|entries| - 1)
    else LastListing(entries[..|entries| - 1], ext)
  }

  /** `LastListingWins` with the later invocations checked one index at a time. */
  lemma ListedAt(entries: seq<Info>, i: nat, ext: string)
    requires i < |entries| && ext in entries[i].fileExt
    requires forall j | i < j < |entries| :: ext !in entries[j].fileExt && entries[j].name != entries[i].name
    ensures Lookup(Built(entries), ext) == Some(entries[i])
  {
    forall e | e in entries[i + 1..] ensures ext !in e.fileExt && e.name != entries[i].name {
      var k :| 0 <= k < |entries[i + 1..]| && entries[i + 1..][k] == e;
      assert entries[i + 1 + k] == e;
    }
    LastListingWins(entries, ext, i);
  }


  /** With unique names and no extension listed twice, every listed extension resolves to the invocation that lists it. */
  lemma EveryListingWins(entries: seq<Info>)
    requires UniqueNames(entries) && DisjointExtensions(entries)
    ensures forall i, ext | 0 <= i < |entries| && ext in entries[i].fileExt :: Lookup(Built(entries), ext) == Some(entries[i])
  {
    forall i, ext | 0 <= i < |entries| && ext in entries[i].fileExt
      ensures Lookup(Built(entries), ext) == Some(entries[i])
    {
      ListedAt(entries, i, ext);
    }
  }
}
