/** The model registry: an index from identifiers and aliases to manifests. */
module Registry {
  import opened Wrappers
  import opened Text
  import opened Sorting
  import opened Manifests

  // ---------------------------------------------------------------- the plain list

  /** All identifiers of a list of manifests, in order. */
  function AllNames(ms: seq<Manifest>): seq<string> {
    if ms == [] then [] else AllNames(ms[..|ms| - 1]) + Names(ms[|ms| - 1])
  }

  function Ids(ms: seq<Manifest>): seq<string> {
    if ms == [] then [] else Ids(ms[..|ms| - 1]) + [ms[|ms| - 1].id]
  }

  /** The lists a registry can be built from. */
  ghost predicate Acceptable(ms: seq<Manifest>) {
    (forall m :: m in ms ==> Validates(m)) && Distinct(AllNames(ms))
  }

  /** The manifest that answers to a name, by the plain list. */
  ghost predicate Resolves(ms: seq<Manifest>, name: string, m: Manifest) {
    m in ms && name in Names(m)
  }

  datatype Entry = Entry(id: string, displayName: string, aliases: seq<string>, backend: string,
                         capabilities: seq<string>, state: string)

  function EntryOf(m: Manifest, capabilities: seq<string>): Entry {
    Entry(m.id, m.displayName, m.aliases, m.backendType, capabilities, m.state)
  }

  /** The entry of a manifest, with the sorted names of its capabilities. */
  ghost predicate IsEntry(m: Manifest, e: Entry) {
    && e.id == m.id && e.displayName == m.displayName && e.aliases == m.aliases
    && e.backend == m.backendType && e.state == m.state
    && AreCapabilityNames(m.capabilities, e.capabilities)
  }

  function EntryIds(es: seq<Entry>): seq<string> {
    if es == [] then [] else EntryIds(es[..|es| - 1]) + [es[|es| - 1].id]
  }

  /** What `List` promises of its result. */
  ghost predicate IsListing(ms: seq<Manifest>, es: seq<Entry>) {
    && SortedBy(EntryIds(es), AtMost)
    && multiset(EntryIds(es)) == multiset(Ids(ms))
    && forall e :: e in es ==> exists m :: m in ms && IsEntry(m, e)
  }

  datatype RegistryError = InvalidManifest(id: string) | DuplicateName(name: string)

  /** Reading `names` after `before`, the first one already met is number `j`. */
  predicate FirstRepeat(before: seq<string>, names: seq<string>, j: nat) {
    j < |names| && Distinct(before + names[..j]) && names[j] in before + names[..j]
  }

  ghost predicate RepeatsFirst(before: seq<string>, names: seq<string>, name: string) {
    exists j: nat :: FirstRepeat(before, names, j) && names[j] == name
  }

  /** Why a manifest cannot be added after `before`: it is not valid, or a name, the first such, is known. */
  ghost predicate Refuses(before: seq<string>, m: Manifest, e: RegistryError) {
    match e
    case InvalidManifest(id) => !Validates(m) && id == m.id
    case DuplicateName(name) => Validates(m) && RepeatsFirst(before, Names(m), name)
  }

  /** The first manifest that cannot be added, and why. */
  ghost predicate IsFirstProblem(ms: seq<Manifest>, i: nat, e: RegistryError) {
    i < |ms| && Acceptable(ms[..i]) && Refuses(AllNames(ms[..i]), ms[i], e)
  }

  // ---------------------------------------------------------------- lemmas on names

  lemma {:induction false} NamesUpTo(ms: seq<Manifest>, i: nat)
    requires i <= |ms|
    ensures AllNames(ms[..i]) <= AllNames(ms)
  {
    if i == |ms| {
      assert ms[..i] == ms;
    } else {
      NamesUpTo(ms[..|ms| - 1], i);
      assert ms[..|ms| - 1][..i] == ms[..i];
    }
  }

  lemma {:induction false} NamesBelong(ms: seq<Manifest>, name: string)
    ensures name in AllNames(ms) <==> exists m :: m in ms && name in Names(m)
  {
    if ms != [] {
      var init, last := ms[..|ms| - 1], ms[|ms| - 1];
      NamesBelong(init, name);
      assert ms == init + [last];
    }
  }

  lemma {:induction false} IdsBelong(ms: seq<Manifest>, id: string)
    ensures id in Ids(ms) <==> exists m :: m in ms && m.id == id
  {
    if ms != [] {
      var init, last := ms[..|ms| - 1], ms[|ms| - 1];
      IdsBelong(init, id);
      assert ms == init + [last];
    }
  }

  lemma AllNamesSnoc(ms: seq<Manifest>, m: Manifest)
    ensures AllNames(ms + [m]) == AllNames(ms) + Names(m)
    ensures Ids(ms + [m]) == Ids(ms) + [m.id]
  {
    assert (ms + [m])[..|ms|] == ms;
  }

  /** A name met again among those already read is a duplicate of the whole. */
  lemma MetTwice(a: seq<string>, b: seq<string>, j: nat)
    requires j < |b| && b[j] in a + b[..j]
    ensures !Distinct(a + b) && multiset(a + b)[b[j]] > 1
  {
    var before, name, after := a + b[..j], b[j], b[j + 1..];
    assert a + b == before + [name] + after;
    var k :| 0 <= k < |before| && before[k] == name;
    assert (a + b)[k] == name && (a + b)[|before|] == name;
    assert multiset(a + b) == multiset(before) + multiset{name} + multiset(after);
    assert name in multiset(before);
  }

  // ---------------------------------------------------------------- the index

  class Registry {
    var byId: map<string, Manifest>
    var aliases: map<string, string>
    var ordered: seq<string>

    constructor ()
      ensures byId == map[] && aliases == map[] && ordered == []
    {
      byId, aliases, ordered := map[], map[], [];
    }

    /** Every entry leads to a manifest that answers to it. */
    ghost predicate Sound()
      reads this
    {
      && (forall id :: id in byId ==> byId[id].id == id)
      && (forall a :: a in aliases ==> aliases[a] in byId && a in byId[aliases[a]].aliases)
    }

    /** The manifests indexed are those of the list. */
    ghost predicate Contains(ms: seq<Manifest>)
      reads this
    {
      && (forall k :: 0 <= k < |ms| ==> ms[k].id in byId && byId[ms[k].id] == ms[k])
      && (forall id :: id in byId ==> byId[id] in ms)
    }

    /** The names indexed are exactly these. */
    ghost predicate Knows(names: seq<string>)
      reads this
    {
      forall s :: s in names <==> s in byId || s in aliases
    }

    ghost predicate Represents(ms: seq<Manifest>)
      reads this
    {
      && Sound() && Contains(ms) && Knows(AllNames(ms))
      && SortedBy(ordered, AtMost) && multiset(ordered) == multiset(Ids(ms))
    }

    /** Enters one alias that is not yet known. */
    method EnterAlias(m: Manifest, alias: string, ghost met: seq<string>)
      requires Sound() && m.id in byId && byId[m.id] == m && alias in m.aliases
      requires Distinct(met) && Knows(met) && alias !in met
      modifies `aliases
      ensures Sound() && Distinct(met + [alias]) && Knows(met + [alias])
    {
      ExtendDistinct(met, alias);
      aliases := aliases[alias := m.id];
    }

    /** Enters the aliases of a manifest that has just been entered under its id. */
    method AddAliases(m: Manifest, ghost before: seq<string>) returns (duplicate: Option<string>)
      requires Sound() && m.id in byId && byId[m.id] == m
      requires Distinct(before + [m.id]) && Knows(before + [m.id])
      modifies `aliases
      ensures duplicate == None <==> Distinct(before + Names(m))
      ensures duplicate == None ==> Sound() && Knows(before + Names(m))
      ensures duplicate.Some? ==> RepeatsFirst(before, Names(m), duplicate.value)
    {
      ghost var names := Names(m);
      assert names[..1] == [m.id];
      for i := 0 to |m.aliases|
        invariant Sound()
        invariant Distinct(before + names[..i + 1]) && Knows(before + names[..i + 1])
      {
        var alias := m.aliases[i];
        ghost var met := before + names[..i + 1];
        assert names[i + 1] == alias;
        assert before + names[..i + 2] == met + [alias];
        if alias in byId || alias in aliases {
          assert alias in met;
          MetTwice(before, names, i + 1);
          assert FirstRepeat(before, names, i + 1);
          return Some(alias);
        }
        EnterAlias(m, alias, met);
      }
      assert names[..|names|] == names;
      return None;
    }

    /** Enters a manifest under its id. */
    method EnterId(m: Manifest, ghost before: seq<Manifest>, ghost names: seq<string>)
      requires Sound() && Contains(before) && Knows(names)
      requires m.id !in names
      modifies `byId, `ordered
      ensures byId == old(byId)[m.id := m] && ordered == old(ordered) + [m.id]
      ensures Sound() && Contains(before + [m]) && Knows(names + [m.id])
    {
      byId := byId[m.id := m];
      ordered := ordered + [m.id];
      forall k | 0 <= k < |before| ensures before[k].id in byId && byId[before[k].id] == before[k] {
        assert before[k].id in old(byId);
      }
      forall id | id in byId ensures byId[id] in before + [m] {
        if id != m.id {
          assert old(byId)[id] in before;
        }
      }
    }

    /** Enters one valid manifest: its id, then its aliases. `names` are those of the manifests before it. */
    method Add(m: Manifest, ghost before: seq<Manifest>, ghost names: seq<string>) returns (duplicate: Option<string>)
      requires Sound() && Contains(before) && Knows(names) && Distinct(names)
      modifies this
      ensures duplicate == None <==> Distinct(names + Names(m))
      ensures duplicate == None ==>
                Sound() && Contains(before + [m]) && Knows(names + Names(m)) && ordered == old(ordered) + [m.id]
      ensures duplicate.Some? ==> RepeatsFirst(names, Names(m), duplicate.value)
    {
      if m.id in byId || m.id in aliases {
        assert m.id in names;
        assert Names(m)[..0] == [] && names + [] == names;
        MetTwice(names, Names(m), 0);
        assert FirstRepeat(names, Names(m), 0);
        return Some(m.id);
      }
      EnterId(m, before, names);
      ExtendDistinct(names, m.id);
      duplicate := AddAliases(m, names);
    }

    method Sort(ghost ms: seq<Manifest>)
      requires Sound() && Contains(ms) && Knows(AllNames(ms)) && ordered == Ids(ms)
      modifies `ordered
      ensures Represents(ms)
    {
      AtMostIsTotalPreorder();
      ordered := SortSlice(ordered, AtMost);
    }

    method Lookup(identifier: string, ghost ms: seq<Manifest>) returns (r: Option<Manifest>)
      requires Represents(ms)
      ensures r.Some? <==> exists m :: Resolves(ms, identifier, m)
      ensures r.Some? ==> Resolves(ms, identifier, r.value)
    {
      if identifier in byId {
        assert Resolves(ms, identifier, byId[identifier]);
        return Some(byId[identifier]);
      }
      NamesBelong(ms, identifier);
      if identifier !in aliases {
        return None;
      }
      var canonical := aliases[identifier];
      if canonical in byId {
        assert Resolves(ms, identifier, byId[canonical]);
        return Some(byId[canonical]);
      }
      return None;
    }

    method List(ghost ms: seq<Manifest>) returns (entries: seq<Entry>)
      requires Represents(ms)
      ensures IsListing(ms, entries)
    {
      entries := [];
      for i := 0 to |ordered|
        invariant EntryIds(entries) == ordered[..i]
        invariant forall e :: e in entries ==> exists m :: m in ms && IsEntry(m, e)
      {
        var id := ordered[i];
        Listed(ordered, ms, i);
        var m := byId[id];
        assert m in ms;
        var names := CapabilityNames(m.capabilities);
        var entry := EntryOf(m, names);
        assert IsEntry(m, entry);
        EntryIdsSnoc(entries, entry);
        entries := entries + [entry];
        assert ordered[..i + 1] == ordered[..i] + [id];
      }
      assert ordered[..|ordered|] == ordered;
    }
  }

  lemma EntryIdsSnoc(es: seq<Entry>, e: Entry)
    ensures EntryIds(es + [e]) == EntryIds(es) + [e.id]
  {
    assert (es + [e])[..|es|] == es;
  }

  lemma Listed(ordered: seq<string>, ms: seq<Manifest>, i: nat)
    requires multiset(ordered) == multiset(Ids(ms)) && i < |ordered|
    ensures exists m :: m in ms && m.id == ordered[i]
  {
    assert ordered[i] in multiset(ordered);
    assert ordered[i] in multiset(Ids(ms));
    IdsBelong(ms, ordered[i]);
  }

  lemma OneMore(ms: seq<Manifest>, i: nat)
    requires i < |ms|
    ensures ms[..i + 1] == ms[..i] + [ms[i]]
    ensures AllNames(ms[..i + 1]) == AllNames(ms[..i]) + Names(ms[i])
    ensures Ids(ms[..i + 1]) == Ids(ms[..i]) + [ms[i].id]
  {
    assert ms[..i + 1] == ms[..i] + [ms[i]];
    AllNamesSnoc(ms[..i], ms[i]);
  }

  /** A duplicate among the first manifests is a duplicate of the list. */
  lemma DuplicateOfAll(ms: seq<Manifest>, i: nat, names: seq<string>, name: string)
    requires i < |ms| && names == AllNames(ms[..i]) && RepeatsFirst(names, Names(ms[i]), name)
    ensures !Distinct(AllNames(ms))
  {
    var j: nat :| FirstRepeat(names, Names(ms[i]), j) && Names(ms[i])[j] == name;
    OneMore(ms, i);
    NamesUpTo(ms, i + 1);
    MetTwice(names, Names(ms[i]), j);
    PrefixCounts(AllNames(ms[..i + 1]), AllNames(ms));
  }

  lemma FirstAccepted(ms: seq<Manifest>, i: nat)
    requires i <= |ms| && FirstValid(ms, i) && Distinct(AllNames(ms[..i]))
    ensures Acceptable(ms[..i])
  {
    forall m | m in ms[..i] ensures Validates(m) {
      var k :| 0 <= k < i && ms[k] == m;
      assert Validates(ms[k]);
    }
  }

  lemma InvalidOfAll(ms: seq<Manifest>, i: nat)
    requires i < |ms| && !Validates(ms[i])
    ensures !Acceptable(ms)
  {
    assert ms[i] in ms;
  }

  lemma FirstProblemHere(ms: seq<Manifest>, i: nat, e: RegistryError)
    requires i < |ms| && Acceptable(ms[..i]) && Refuses(AllNames(ms[..i]), ms[i], e)
    ensures IsFirstProblem(ms, i, e)
  {
  }

  /** The body of the loop of `New`: validates one manifest and adds it. */
  method AddNext(registry: Registry, ms: seq<Manifest>, i: nat, ghost names: seq<string>)
    returns (err: Option<RegistryError>)
    requires i < |ms| && Acceptable(ms[..i]) && names == AllNames(ms[..i]) && Distinct(names)
    requires registry.Sound() && registry.Contains(ms[..i]) && registry.Knows(names)
    modifies registry
    ensures err.Some? ==> IsFirstProblem(ms, i, err.value) && !Acceptable(ms)
    ensures err == None ==> Validates(ms[i]) && Distinct(names + Names(ms[i]))
    ensures err == None ==>
              registry.Sound() && registry.Contains(ms[..i] + [ms[i]]) && registry.Knows(names + Names(ms[i]))
    ensures err == None ==> registry.ordered == old(registry.ordered) + [ms[i].id]
  {
    var valid := Validate(ms[i]);
    if !valid {
      InvalidOfAll(ms, i);
      err := Some(InvalidManifest(ms[i].id));
      FirstProblemHere(ms, i, err.value);
      return;
    }
    var duplicate := registry.Add(ms[i], ms[..i], names);
    if duplicate.Some? {
      DuplicateOfAll(ms, i, names, duplicate.value);
      err := Some(DuplicateName(duplicate.value));
      FirstProblemHere(ms, i, err.value);
      return;
    }
    return None;
  }

  ghost predicate FirstValid(ms: seq<Manifest>, i: nat) {
    forall k :: 0 <= k < i && k < |ms| ==> Validates(ms[k])
  }

  lemma OneMoreValid(ms: seq<Manifest>, i: nat)
    requires i < |ms| && FirstValid(ms, i) && Validates(ms[i])
    ensures FirstValid(ms, i + 1)
  {
    forall k | 0 <= k < i + 1 && k < |ms| ensures Validates(ms[k]) {
      if k == i {
        assert ms[k] == ms[i];
      }
    }
  }

  lemma AllAccepted(ms: seq<Manifest>)
    requires FirstValid(ms, |ms|) && Distinct(AllNames(ms))
    ensures Acceptable(ms)
  {
  }

  method New(manifests: seq<Manifest>) returns (registry: Registry, err: Option<RegistryError>)
    ensures fresh(registry)
    ensures err == None <==> Acceptable(manifests)
    ensures err == None ==> registry.Represents(manifests)
    ensures err.Some? ==> exists i :: IsFirstProblem(manifests, i, err.value)
  {
    registry := new Registry();
    ghost var names := [];
    for i := 0 to |manifests|
      invariant fresh(registry)
      invariant FirstValid(manifests, i)
      invariant names == AllNames(manifests[..i]) && Distinct(names)
      invariant registry.Sound() && registry.Contains(manifests[..i]) && registry.Knows(names)
      invariant registry.ordered == Ids(manifests[..i])
    {
      FirstAccepted(manifests, i);
      err := AddNext(registry, manifests, i, names);
      if err.Some? {
        return;
      }
      OneMoreValid(manifests, i);
      OneMore(manifests, i);
      names := names + Names(manifests[i]);
    }
    assert manifests[..|manifests|] == manifests;
    AllAccepted(manifests);
    registry.Sort(manifests);
    err := None;
  }

  lemma PrefixCounts(a: seq<string>, b: seq<string>)
    requires a <= b
    ensures forall s :: multiset(a)[s] <= multiset(b)[s]
    ensures Distinct(b) ==> Distinct(a)
  {
    assert b == a + b[|a|..];
  }
}
