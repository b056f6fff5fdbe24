/** The registry agrees with the plain list of manifests, in whatever order the list comes. */
module RegistryProofs {
  import opened Wrappers
  import opened Text
  import opened Sorting
  import opened Manifests
  import opened Registry

  // ---------------------------------------------------------------- owners

  /** In a list without duplicate names, a name belongs to one manifest. */
  lemma OwnerIsUnique(ms: seq<Manifest>, name: string, m: Manifest, m': Manifest)
    requires Distinct(AllNames(ms)) && Resolves(ms, name, m) && Resolves(ms, name, m')
    ensures m == m'
  {
    var k :| 0 <= k < |ms| && ms[k] == m;
    var k' :| 0 <= k' < |ms| && ms[k'] == m';
    if k < k' {
      NamedTwice(ms, name, k, k');
    } else if k' < k {
      NamedTwice(ms, name, k', k);
    }
  }

  lemma NamedTwice(ms: seq<Manifest>, name: string, i: nat, j: nat)
    requires i < j < |ms| && name in Names(ms[i]) && name in Names(ms[j])
    ensures !Distinct(AllNames(ms))
  {
    assert ms[..j][i] == ms[i];
    NamesBelong(ms[..j], name);
    var k :| 0 <= k < |Names(ms[j])| && Names(ms[j])[k] == name;
    MetTwice(AllNames(ms[..j]), Names(ms[j]), k);
    DuplicateIsOfAll(ms, j);
  }

  lemma DuplicateIsOfAll(ms: seq<Manifest>, j: nat)
    requires j < |ms| && !Distinct(AllNames(ms[..j]) + Names(ms[j]))
    ensures !Distinct(AllNames(ms))
  {
    OneMore(ms, j);
    NamesUpTo(ms, j + 1);
    PrefixCounts(AllNames(ms[..j + 1]), AllNames(ms));
  }

  // ---------------------------------------------------------------- permutations of the list

  function Drop(ms: seq<Manifest>, i: nat): seq<Manifest>
    requires i < |ms|
  {
    ms[..i] + ms[i + 1..]
  }

  lemma DropLast(ms: seq<Manifest>, i: nat)
    requires i < |ms|
    ensures var init, last := ms[..|ms| - 1], ms[|ms| - 1];
            && ms == init + [last]
            && Drop(ms, i) == if i == |init| then init else Drop(init, i) + [last]
  {
  }

  lemma {:induction false} NamesWithout(ms: seq<Manifest>, i: nat)
    requires i < |ms|
    ensures multiset(AllNames(ms)) == multiset(AllNames(Drop(ms, i))) + multiset(Names(ms[i]))
  {
    var init, last := ms[..|ms| - 1], ms[|ms| - 1];
    DropLast(ms, i);
    AllNamesSnoc(init, last);
    if i < |init| {
      NamesWithout(init, i);
      AllNamesSnoc(Drop(init, i), last);
    }
  }

  lemma {:induction false} IdsWithout(ms: seq<Manifest>, i: nat)
    requires i < |ms|
    ensures multiset(Ids(ms)) == multiset(Ids(Drop(ms, i))) + multiset{ms[i].id}
  {
    var init, last := ms[..|ms| - 1], ms[|ms| - 1];
    DropLast(ms, i);
    AllNamesSnoc(init, last);
    if i < |init| {
      IdsWithout(init, i);
      AllNamesSnoc(Drop(init, i), last);
    }
  }

  lemma {:induction false} NamesOfPermutation(ms: seq<Manifest>, ms': seq<Manifest>)
    requires multiset(ms) == multiset(ms')
    ensures multiset(AllNames(ms)) == multiset(AllNames(ms'))
    ensures multiset(Ids(ms)) == multiset(Ids(ms'))
    decreases |ms|
  {
    if ms == [] {
      assert |multiset(ms')| == |ms'|;
    } else {
      var i := TakeOutLast(ms, ms');
      NamesOfPermutation(ms[..|ms| - 1], Drop(ms', i));
      NamesWithout(ms', i);
      IdsWithout(ms', i);
    }
  }

  // ---------------------------------------------------------------- the first problem

  lemma FirstRepeatIsUnique(before: seq<string>, names: seq<string>, j: nat, k: nat)
    requires FirstRepeat(before, names, j) && FirstRepeat(before, names, k)
    ensures j == k
  {
    if j < k {
      RepeatsBeyond(before, names, j, k);
    } else if k < j {
      RepeatsBeyond(before, names, k, j);
    }
  }

  lemma RepeatsBeyond(before: seq<string>, names: seq<string>, j: nat, k: nat)
    requires j < k <= |names| && names[j] in before + names[..j]
    ensures !Distinct(before + names[..k])
  {
    assert names[..k][..j] == names[..j];
    MetTwice(before, names[..k], j);
  }

  lemma ProblemEndsPrefix(ms: seq<Manifest>, i: nat, e: RegistryError, k: nat)
    requires i < k <= |ms| && Refuses(AllNames(ms[..i]), ms[i], e)
    ensures !Acceptable(ms[..k])
  {
    var first := ms[..k];
    assert first[i] == ms[i] && first[..i] == ms[..i];
    if e.DuplicateName? {
      DuplicateOfAll(first, i, AllNames(ms[..i]), e.name);
    } else {
      InvalidOfAll(first, i);
    }
  }

  lemma OneReason(before: seq<string>, m: Manifest, e: RegistryError, f: RegistryError)
    requires Refuses(before, m, e) && Refuses(before, m, f)
    ensures e == f
  {
    if e.DuplicateName? && f.DuplicateName? {
      var j: nat :| FirstRepeat(before, Names(m), j) && Names(m)[j] == e.name;
      var k: nat :| FirstRepeat(before, Names(m), k) && Names(m)[k] == f.name;
      FirstRepeatIsUnique(before, Names(m), j, k);
    }
  }

  /** The contract of `New` leaves no choice: a refused list has one first problem. */
  lemma FirstProblemIsUnique(ms: seq<Manifest>, i: nat, e: RegistryError, k: nat, f: RegistryError)
    requires IsFirstProblem(ms, i, e) && IsFirstProblem(ms, k, f)
    ensures i == k && e == f
  {
    if i < k {
      ProblemEndsPrefix(ms, i, e, k);
    } else if k < i {
      ProblemEndsPrefix(ms, k, f, i);
    } else {
      OneReason(AllNames(ms[..i]), ms[i], e, f);
    }
  }

  // ---------------------------------------------------------------- listings

  lemma {:induction false} EntryIdsAt(es: seq<Entry>)
    ensures |EntryIds(es)| == |es|
    ensures forall i :: 0 <= i < |es| ==> EntryIds(es)[i] == es[i].id
  {
    if es != [] {
      EntryIdsAt(es[..|es| - 1]);
    }
  }

  /** A listing is determined by the list up to order. */
  lemma ListingIsDetermined(ms: seq<Manifest>, ms': seq<Manifest>, es: seq<Entry>, es': seq<Entry>)
    requires Acceptable(ms) && multiset(ms) == multiset(ms')
    requires IsListing(ms, es) && IsListing(ms', es')
    ensures es == es'
  {
    NamesOfPermutation(ms, ms');
    SortedStringsAreUnique(EntryIds(es), EntryIds(es'));
    EntryIdsAt(es);
    EntryIdsAt(es');
    forall i | 0 <= i < |es| ensures es[i] == es'[i] {
      assert es[i] in es && es'[i] in es' && es[i].id == es'[i].id;
      var m :| m in ms && IsEntry(m, es[i]);
      var m' :| m' in ms' && IsEntry(m', es'[i]);
      assert m' in multiset(ms);
      assert Names(m)[0] == m.id && Names(m')[0] == m'.id;
      OwnerIsUnique(ms, m.id, m, m');
      CapabilityNamesAreUnique(m.capabilities, es[i].capabilities, es'[i].capabilities);
    }
  }

  /** Acceptance, lookup and listing do not depend on the order of the list. */
  lemma RegistryIgnoresOrder(ms: seq<Manifest>, ms': seq<Manifest>)
    requires multiset(ms) == multiset(ms')
    ensures Acceptable(ms) <==> Acceptable(ms')
    ensures forall name, m :: Resolves(ms, name, m) <==> Resolves(ms', name, m)
    ensures Acceptable(ms) ==> forall es, es' :: IsListing(ms, es) && IsListing(ms', es') ==> es == es'
  {
    NamesOfPermutation(ms, ms');
    DistinctMeansOnce(AllNames(ms));
    DistinctMeansOnce(AllNames(ms'));
    assert forall m :: m in ms <==> m in multiset(ms);
    assert forall m :: m in ms' <==> m in multiset(ms');
    if Acceptable(ms) {
      forall es, es' | IsListing(ms, es) && IsListing(ms', es') ensures es == es' {
        ListingIsDetermined(ms, ms', es, es');
      }
    }
  }
}
