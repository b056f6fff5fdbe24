/** Sorting, known only by its contract, as the source knows its library's. */
module Sorting {
  import opened Text

  ghost predicate TotalPreorder<T(!new)>(le: (T, T) -> bool) {
    && (forall x, y :: le(x, y) || le(y, x))
    && (forall x, y, z :: le(x, y) && le(y, z) ==> le(x, z))
  }

  predicate SortedBy<T>(xs: seq<T>, le: (T, T) -> bool) {
    forall i, j :: 0 <= i < j < |xs| ==> le(xs[i], xs[j])
  }

  lemma InsertKeepsOrder<T(!new)>(ys: seq<T>, k: nat, x: T, zs: seq<T>, le: (T, T) -> bool)
    requires TotalPreorder(le) && SortedBy(ys, le) && k <= |ys|
    requires k > 0 ==> le(ys[k - 1], x)
    requires forall j :: k <= j < |ys| ==> le(x, ys[j])
    requires |zs| == |ys| + 1 && zs[k] == x
    requires (forall j :: 0 <= j < k ==> zs[j] == ys[j]) && (forall j :: k < j < |zs| ==> zs[j] == ys[j - 1])
    ensures SortedBy(zs, le)
  {
    forall j | 0 <= j < k ensures le(ys[j], x) {
      if j < k - 1 {
        assert le(ys[j], ys[k - 1]);
      }
    }
    forall i, j | 0 <= i < j < |zs| ensures le(zs[i], zs[j]) {
      if i != k && j != k {
        var i', j' := if i < k then i else i - 1, if j < k then j else j - 1;
        assert le(ys[i'], ys[j']);
      }
    }
  }

  lemma InsertKeepsElements<T>(ys: seq<T>, k: nat, x: T)
    requires k <= |ys|
    ensures multiset(ys[..k] + [x] + ys[k..]) == multiset(ys) + multiset{x}
  {
    assert ys == ys[..k] + ys[k..];
  }

  /** Some sorted permutation; ties may come out in any order. */
  method SortSlice<T(!new, ==)>(xs: seq<T>, le: (T, T) -> bool) returns (ys: seq<T>)
    requires TotalPreorder(le)
    ensures SortedBy(ys, le)
    ensures multiset(ys) == multiset(xs)
  {
    ys := [];
    for i := 0 to |xs|
      invariant SortedBy(ys, le)
      invariant multiset(ys) == multiset(xs[..i])
    {
      var x, k := xs[i], |ys|;
      while k > 0 && !le(ys[k - 1], x)
        invariant 0 <= k <= |ys|
        invariant forall j :: k <= j < |ys| ==> le(x, ys[j])
      {
        k := k - 1;
      }
      InsertKeepsOrder(ys, k, x, ys[..k] + [x] + ys[k..], le);
      InsertKeepsElements(ys, k, x);
      assert xs[..i + 1] == xs[..i] + [x];
      ys := ys[..k] + [x] + ys[k..];
    }
    assert xs[..|xs|] == xs;
  }

  /** Every list has a sorted permutation. */
  lemma {:induction false} SortedPermutation<T(!new)>(xs: seq<T>, le: (T, T) -> bool) returns (ys: seq<T>)
    requires TotalPreorder(le)
    ensures SortedBy(ys, le) && multiset(ys) == multiset(xs)
  {
    if xs == [] {
      ys := [];
    } else {
      var sorted := SortedPermutation(xs[1..], le);
      var k;
      k, ys := Insertion(sorted, xs[0], le);
      assert xs == [xs[0]] + xs[1..];
    }
  }

  /** An element can be inserted before every one that it may precede. */
  lemma Insertion<T(!new)>(sorted: seq<T>, x: T, le: (T, T) -> bool) returns (k: nat, ys: seq<T>)
    requires TotalPreorder(le) && SortedBy(sorted, le)
    ensures SortedBy(ys, le) && multiset(ys) == multiset(sorted) + multiset{x}
    ensures k < |ys| && ys[k] == x
    ensures forall j :: 0 <= j < k ==> !le(x, ys[j])
  {
    k := InsertionPoint(sorted, x, le);
    ys := sorted[..k] + [x] + sorted[k..];
    assert forall j :: 0 <= j < k ==> ys[j] == sorted[j];
    InsertKeepsOrder(sorted, k, x, ys, le);
    InsertKeepsElements(sorted, k, x);
  }

  lemma {:induction false} InsertionPoint<T(!new)>(sorted: seq<T>, x: T, le: (T, T) -> bool) returns (k: nat)
    requires TotalPreorder(le) && SortedBy(sorted, le)
    ensures k <= |sorted|
    ensures forall j :: 0 <= j < k ==> !le(x, sorted[j])
    ensures forall j :: k <= j < |sorted| ==> le(x, sorted[j])
  {
    if sorted == [] || le(x, sorted[0]) {
      k := 0;
      forall j | 0 <= j < |sorted| ensures le(x, sorted[j]) {
        assert j == 0 || le(sorted[0], sorted[j]);
      }
    } else {
      var n := InsertionPoint(sorted[1..], x, le);
      k := n + 1;
      assert forall j :: 1 <= j < |sorted| ==> sorted[j] == sorted[1..][j - 1];
    }
  }

  lemma AtMostIsTotalPreorder()
    ensures TotalPreorder(AtMost)
  {
    forall x: string, y: string ensures AtMost(x, y) || AtMost(y, x) { LessIsTotal(x, y); }
    forall x: string, y: string, z: string | AtMost(x, y) && AtMost(y, z) ensures AtMost(x, z) {
      if x != y && y != z {
        LessIsTransitive(x, y, z);
      }
    }
  }

  lemma SameLeastString(a: seq<string>, b: seq<string>)
    requires SortedBy(a, AtMost) && SortedBy(b, AtMost)
    requires multiset(a) == multiset(b) && a != [] && b != []
    ensures a[0] == b[0]
  {
    assert a[0] in multiset(b) && b[0] in multiset(a);
    var i :| 0 <= i < |b| && b[i] == a[0];
    var j :| 0 <= j < |a| && a[j] == b[0];
    LessIsTotal(a[0], b[0]);
  }

  /** Two sorted lists of the same strings are the same list. */
  lemma {:induction false} SortedStringsAreUnique(a: seq<string>, b: seq<string>)
    requires SortedBy(a, AtMost) && SortedBy(b, AtMost)
    requires multiset(a) == multiset(b)
    ensures a == b
  {
    assert |a| == |multiset(a)| == |multiset(b)| == |b|;
    if a != [] {
      SameLeastString(a, b);
      assert a == [a[0]] + a[1..] && b == [b[0]] + b[1..];
      assert multiset(a[1..]) == multiset(a) - multiset{a[0]};
      assert multiset(b[1..]) == multiset(b) - multiset{b[0]};
      SortedStringsAreUnique(a[1..], b[1..]);
    }
  }

  lemma TakeOut<T>(xs: seq<T>, i: nat)
    requires i < |xs|
    ensures multiset(xs[..i] + xs[i + 1..]) == multiset(xs) - multiset{xs[i]}
  {
    var rest := xs[..i] + xs[i + 1..];
    InsertKeepsElements(rest, i, xs[i]);
    assert xs == rest[..i] + [xs[i]] + rest[i..];
  }

  /** The last element of a list can be found in a permutation of it and taken out. */
  lemma TakeOutLast<T>(xs: seq<T>, ys: seq<T>) returns (i: nat)
    requires xs != [] && multiset(xs) == multiset(ys)
    ensures i < |ys| && ys[i] == xs[|xs| - 1]
    ensures multiset(ys[..i] + ys[i + 1..]) == multiset(xs[..|xs| - 1])
  {
    var init, last := xs[..|xs| - 1], xs[|xs| - 1];
    assert last in multiset(ys);
    i :| 0 <= i < |ys| && ys[i] == last;
    TakeOut(ys, i);
    TakeOut(xs, |xs| - 1);
    assert init + xs[|xs|..] == init;
  }

  // ---------------------------------------------------------------- lists without repetition

  predicate Distinct<T(==)>(xs: seq<T>) {
    forall i, j :: 0 <= i < j < |xs| ==> xs[i] != xs[j]
  }

  lemma ExtendDistinct<T>(xs: seq<T>, x: T)
    requires Distinct(xs) && x !in xs
    ensures Distinct(xs + [x])
  {
  }

  lemma {:induction false} DistinctMeansOnce<T(!new)>(xs: seq<T>)
    ensures Distinct(xs) <==> forall x :: multiset(xs)[x] <= 1
  {
    if xs != [] {
      var init, last := xs[..|xs| - 1], xs[|xs| - 1];
      DistinctMeansOnce(init);
      assert xs == init + [last];
      assert forall x :: multiset(xs)[x] == multiset(init)[x] + multiset{last}[x];
      assert last in init <==> multiset(init)[last] > 0;
      if Distinct(xs) {
        assert forall i, j :: 0 <= i < j < |init| ==> init[i] == xs[i] && init[j] == xs[j];
        assert Distinct(init);
        assert forall i :: 0 <= i < |init| ==> init[i] == xs[i] != xs[|xs| - 1];
      }
      if forall x :: multiset(xs)[x] <= 1 {
        assert forall x :: multiset(init)[x] <= multiset(xs)[x];
        assert last !in init;
        ExtendDistinct(init, last);
      }
    }
  }

  /** Every set can be listed. */
  lemma {:induction false} ListSet<T>(s: set<T>) returns (xs: seq<T>)
    ensures Distinct(xs) && forall x :: x in xs <==> x in s
  {
    if s == {} {
      xs := [];
    } else {
      var x :| x in s;
      var rest := ListSet(s - {x});
      ExtendDistinct(rest, x);
      xs := rest + [x];
    }
  }

  lemma PermutationKeepsDistinct<T(!new)>(xs: seq<T>, ys: seq<T>)
    requires multiset(xs) == multiset(ys) && Distinct(xs)
    ensures Distinct(ys)
    ensures forall v :: v in xs <==> v in ys
  {
    DistinctMeansOnce(xs);
    DistinctMeansOnce(ys);
    assert forall v :: v in xs <==> v in multiset(xs);
    assert forall v :: v in ys <==> v in multiset(ys);
  }

  /** Two sorted lists of the same strings, each once, are the same list. */
  lemma SortedSetIsUnique(a: seq<string>, b: seq<string>)
    requires SortedBy(a, AtMost) && SortedBy(b, AtMost) && Distinct(a) && Distinct(b)
    requires forall v :: v in a <==> v in b
    ensures a == b
  {
    DistinctMeansOnce(a);
    DistinctMeansOnce(b);
    assert forall v :: v in a <==> v in multiset(a);
    assert forall v :: v in b <==> v in multiset(b);
    assert forall v :: multiset(a)[v] == multiset(b)[v];
    SortedStringsAreUnique(a, b);
  }
}
