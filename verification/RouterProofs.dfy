/** The route is a function of what the inputs contain, not of how they are ordered or named. */
module RouterProofs {
  import opened Wrappers
  import opened Text
  import opened Sorting
  import opened Manifests
  import R = Registry
  import RP = RegistryProofs
  import opened RouterSpec

  predicate DistinctIds(backends: seq<Descriptor>) {
    forall i, j :: 0 <= i < j < |backends| ==> backends[i].id != backends[j].id
  }

  // ---------------------------------------------------------------- each part of a plan is determined

  lemma SameMembers<T>(xs: seq<T>, ys: seq<T>)
    requires multiset(xs) == multiset(ys)
    ensures forall x :: x in xs <==> x in ys
  {
    assert forall x :: x in xs <==> x in multiset(xs);
    assert forall x :: x in ys <==> x in multiset(ys);
  }

  lemma NormalizedIsUnique(values: seq<string>, values': seq<string>, a: seq<string>, b: seq<string>)
    requires Needed(values) == Needed(values') && IsNormalized(values, a) && IsNormalized(values', b)
    ensures a == b
  {
    SortedSetIsUnique(a, b);
  }

  function Drop(ps: seq<Policy>, i: nat): seq<Policy>
    requires i < |ps|
  {
    ps[..i] + ps[i + 1..]
  }

  function OwnId(p: Policy, family: string, variant: string, kind: string): multiset<string> {
    if Matches(p, family, variant, kind) then multiset{p.id} else multiset{}
  }

  lemma MatchIdsSnoc(ps: seq<Policy>, p: Policy, family: string, variant: string, kind: string)
    ensures multiset(MatchIds(ps + [p], family, variant, kind))
            == multiset(MatchIds(ps, family, variant, kind)) + OwnId(p, family, variant, kind)
  {
    assert (ps + [p])[..|ps|] == ps;
  }

  lemma {:induction false} MatchIdsWithout(ps: seq<Policy>, i: nat, family: string, variant: string, kind: string)
    requires i < |ps|
    ensures multiset(MatchIds(ps, family, variant, kind))
            == multiset(MatchIds(Drop(ps, i), family, variant, kind)) + OwnId(ps[i], family, variant, kind)
  {
    var init, last := ps[..|ps| - 1], ps[|ps| - 1];
    assert ps == init + [last];
    MatchIdsSnoc(init, last, family, variant, kind);
    if i == |init| {
      assert Drop(ps, i) == init;
    } else {
      MatchIdsWithout(init, i, family, variant, kind);
      assert Drop(ps, i) == Drop(init, i) + [last];
      MatchIdsSnoc(Drop(init, i), last, family, variant, kind);
    }
  }

  lemma {:induction false} MatchIdsOfPermutation(ps: seq<Policy>, ps': seq<Policy>, family: string, variant: string,
                                                 kind: string)
    requires multiset(ps) == multiset(ps')
    ensures multiset(MatchIds(ps, family, variant, kind)) == multiset(MatchIds(ps', family, variant, kind))
    decreases |ps|
  {
    if ps == [] {
      assert |multiset(ps')| == |ps'|;
    } else {
      var init, last := ps[..|ps| - 1], ps[|ps| - 1];
      var i := TakeOutLast(ps, ps');
      MatchIdsOfPermutation(init, Drop(ps', i), family, variant, kind);
      MatchIdsWithout(ps', i, family, variant, kind);
      assert ps == init + [last];
      MatchIdsSnoc(init, last, family, variant, kind);
    }
  }

  /** Two usable choices neither of which comes before the other are the same choice. */
  lemma LeastIsUnique(c: Candidate, id: string, c': Candidate, id': string)
    requires !Before(c, id, c', id') && !Before(c', id', c, id)
    ensures c == c' && id == id'
  {
    LessIsTotal(c.kind, c'.kind);
    LessIsTotal(c.uri, c'.uri);
    LessIsTotal(id, id');
  }

  /** Two manifests that differ only in the order of their artifacts. */
  predicate SameModel(m: Manifest, m': Manifest) {
    m'.(artifacts := m.artifacts) == m && multiset(m.artifacts) == multiset(m'.artifacts)
  }

  lemma UsableIgnoresOrder(m: Manifest, m': Manifest, backends: seq<Descriptor>, backends': seq<Descriptor>,
                           needed: set<string>, c: Candidate, d: Descriptor)
    requires SameModel(m, m') && multiset(backends) == multiset(backends')
    ensures Usable(m, backends, needed, c, d) <==> Usable(m', backends', needed, c, d)
  {
    SameMembers(backends, backends');
    SameMembers(m.artifacts, m'.artifacts);
    assert forall a :: CandidateOf(m, a) == CandidateOf(m', a);
    assert forall name :: Meets(m, d, name) <==> Meets(m', d, name);
  }

  // ---------------------------------------------------------------- the route

  /** All backends that tie for the least choice report the same context. */
  ghost predicate TiesAgree(m: Manifest, backends: seq<Descriptor>, needed: set<string>) {
    forall c, d, d' ::
      && Usable(m, backends, needed, c, d) && Usable(m, backends, needed, c, d') && d.id == d'.id
      && NoneBefore(m, backends, needed, c, d.id)
      ==> d.context == d'.context
  }

  /** No usable choice comes before this candidate and backend id. */
  ghost predicate NoneBefore(m: Manifest, backends: seq<Descriptor>, needed: set<string>, c: Candidate, id: string) {
    forall c', d' :: Usable(m, backends, needed, c', d') ==> !Before(c', d'.id, c, id)
  }

  /** Distinct ids are enough. */
  lemma DistinctIdsAgree(m: Manifest, backends: seq<Descriptor>, needed: set<string>)
    requires DistinctIds(backends)
    ensures TiesAgree(m, backends, needed)
  {
    forall d, d' | d in backends && d' in backends && d.id == d'.id ensures d == d' {
      SameIdSameBackend(backends, d, d');
    }
  }

  lemma SameIdSameBackend(backends: seq<Descriptor>, d: Descriptor, d': Descriptor)
    requires DistinctIds(backends) && d in backends && d' in backends && d.id == d'.id
    ensures d == d'
  {
  }

  /** The backend a route takes, with the facts the proofs below need. */
  lemma Taken(m: Manifest, backends: seq<Descriptor>, policies: seq<Policy>, values: seq<string>, p: Plan)
    returns (k: nat)
    requires IsRoute(m, backends, policies, values, p)
    ensures TakesFirst(m, backends, Needed(values), ChosenCandidate(p), k)
    ensures backends[k].id == p.backendId && backends[k].context == p.context
    ensures Usable(m, backends, Needed(values), ChosenCandidate(p), backends[k])
    ensures NoneBefore(m, backends, Needed(values), ChosenCandidate(p), p.backendId)
  {
    k :| TakesFirst(m, backends, Needed(values), ChosenCandidate(p), k)
         && backends[k].id == p.backendId && backends[k].context == p.context;
    assert backends[k] in backends;
  }

  /** What permuting leaves of a route, whether backends share ids or not. */
  lemma RoutesAgree(m: Manifest, m': Manifest, backends: seq<Descriptor>, backends': seq<Descriptor>,
                    policies: seq<Policy>, policies': seq<Policy>, values: seq<string>, values': seq<string>,
                    p: Plan, p': Plan)
    requires SameModel(m, m') && multiset(backends) == multiset(backends') && multiset(policies) == multiset(policies')
    requires Needed(values) == Needed(values')
    requires IsRoute(m, backends, policies, values, p) && IsRoute(m', backends', policies', values', p')
    ensures p == p'.(requested := p.requested, context := p.context)
  {
    var needed := Needed(values);
    forall c, d ensures Usable(m, backends, needed, c, d) <==> Usable(m', backends', needed, c, d) {
      UsableIgnoresOrder(m, m', backends, backends', needed, c, d);
    }
    var k := Taken(m, backends, policies, values, p);
    var k' := Taken(m', backends', policies', values', p');
    assert Usable(m, backends, needed, ChosenCandidate(p'), backends'[k']);
    assert Usable(m', backends', needed, ChosenCandidate(p), backends[k]);
    LeastIsUnique(ChosenCandidate(p), p.backendId, ChosenCandidate(p'), p'.backendId);
    NormalizedIsUnique(values, values', p.required, p'.required);
    MatchIdsOfPermutation(policies, policies', m.architecture, m.parameterClass, p.kind);
    SortedStringsAreUnique(p.policyIds, p'.policyIds);
  }

  /** Permuting or repeating requirements and permuting artifacts, backends or policies changes neither
      whether there is a route nor the route. */
  lemma RouteIgnoresOrder(m: Manifest, m': Manifest, backends: seq<Descriptor>, backends': seq<Descriptor>,
                          policies: seq<Policy>, policies': seq<Policy>, values: seq<string>, values': seq<string>,
                          p: Plan, p': Plan)
    requires SameModel(m, m') && multiset(backends) == multiset(backends') && multiset(policies) == multiset(policies')
    requires Needed(values) == Needed(values')
    ensures Routable(m, backends, values) <==> Routable(m', backends', values')
    ensures TiesAgree(m, backends, Needed(values)) || DistinctIds(backends) ==>
              IsRoute(m, backends, policies, values, p) && IsRoute(m', backends', policies', values', p') ==>
                p == p'.(requested := p.requested)
  {
    var needed := Needed(values);
    forall c, d ensures Usable(m, backends, needed, c, d) <==> Usable(m', backends', needed, c, d) {
      UsableIgnoresOrder(m, m', backends, backends', needed, c, d);
    }
    if IsRoute(m, backends, policies, values, p) && IsRoute(m', backends', policies', values', p') {
      RoutesAgree(m, m', backends, backends', policies, policies', values, values', p, p');
      var k := Taken(m, backends, policies, values, p);
      var k' := Taken(m', backends', policies', values', p');
      assert Usable(m, backends, needed, ChosenCandidate(p), backends'[k']);
      if DistinctIds(backends) {
        DistinctIdsAgree(m, backends, needed);
      }
    }
  }

  /** A router has one answer to a request: the relation `Route` promises leaves no choice. */
  lemma RouteIsDetermined(m: Manifest, backends: seq<Descriptor>, policies: seq<Policy>, values: seq<string>,
                          p: Plan, q: Plan)
    requires IsRoute(m, backends, policies, values, p) && IsRoute(m, backends, policies, values, q)
    ensures q == p.(requested := q.requested)
  {
    RoutesAgree(m, m, backends, backends, policies, policies, values, values, p, q);
    var k := Taken(m, backends, policies, values, p);
    var n := Taken(m, backends, policies, values, q);
    assert k == n;
  }

  /** Routing by an alias gives the plan of the canonical identifier, but for the identifier requested. */
  lemma AliasesAreTransparent(ms: seq<Manifest>, byAlias: Manifest, byId: Manifest, alias: string,
                              backends: seq<Descriptor>, policies: seq<Policy>, values: seq<string>, p: Plan, q: Plan)
    requires Distinct(R.AllNames(ms))
    requires R.Resolves(ms, alias, byAlias) && R.Resolves(ms, byAlias.id, byId)
    ensures byAlias == byId
    ensures IsRoute(byAlias, backends, policies, values, p) && IsRoute(byId, backends, policies, values, q)
            ==> q == p.(requested := q.requested)
  {
    assert Names(byAlias)[0] == byAlias.id;
    RP.OwnerIsUnique(ms, byAlias.id, byAlias, byId);
    if IsRoute(byAlias, backends, policies, values, p) && IsRoute(byId, backends, policies, values, q) {
      RouteIsDetermined(byAlias, backends, policies, values, p, q);
    }
  }

  /** Asking for less never costs the route: if a set of requirements routes, so does every subset, and
      the route found is no later in the order of choices. */
  lemma FewerRequirementsRouteNoLater(m: Manifest, backends: seq<Descriptor>, policies: seq<Policy>, more: seq<string>,
                                      fewer: seq<string>, p: Plan, q: Plan)
    requires Needed(fewer) <= Needed(more)
    ensures Routable(m, backends, more) ==> Routable(m, backends, fewer)
    ensures IsRoute(m, backends, policies, more, p) && IsRoute(m, backends, policies, fewer, q)
            ==> !Before(ChosenCandidate(p), p.backendId, ChosenCandidate(q), q.backendId)
  {
    forall c, d | Usable(m, backends, Needed(more), c, d) ensures Usable(m, backends, Needed(fewer), c, d) {
      FewerIsEasier(m, d, Needed(more), Needed(fewer));
    }
    if IsRoute(m, backends, policies, more, p) && IsRoute(m, backends, policies, fewer, q) {
      var k := Taken(m, backends, policies, more, p);
      var n := Taken(m, backends, policies, fewer, q);
      assert Usable(m, backends, Needed(fewer), ChosenCandidate(p), backends[k]);
    }
  }

  lemma FewerIsEasier(m: Manifest, d: Descriptor, more: set<string>, fewer: set<string>)
    requires fewer <= more && Satisfies(m, d, more)
    ensures Satisfies(m, d, fewer)
  {
  }

  // ---------------------------------------------------------------- backends that share an id

  /** The backend lists `New` can make of the backends it is given: the sort leaves ties in any order. */
  ghost predicate IsSorting(given: seq<Descriptor>, backends: seq<Descriptor>) {
    SortedBy(backends, IdAtMost) && multiset(backends) == multiset(given)
  }

  /** Some sorting puts any given backend before all others of its id. */
  lemma SortingWithFirst(given: seq<Descriptor>, d: Descriptor) returns (backends: seq<Descriptor>, k: nat)
    requires d in given
    ensures IsSorting(given, backends) && k < |backends| && backends[k] == d
    ensures forall j :: 0 <= j < k ==> Less(backends[j].id, d.id)
  {
    var i :| 0 <= i < |given| && given[i] == d;
    IdOrderIsTotal();
    TakeOut(given, i);
    var rest := SortedPermutation(given[..i] + given[i + 1..], IdAtMost);
    k, backends := Insertion(rest, d, IdAtMost);
    assert multiset(backends) == multiset(given) by { assert d in multiset(given); }
    forall j | 0 <= j < k ensures Less(backends[j].id, d.id) {
      assert !IdAtMost(d, backends[j]);
      LessIsTotal(backends[j].id, d.id);
    }
  }

  /** A backend that comes first, and before which no usable choice comes, is the one routed to. */
  lemma RouteTo(requested: string, m: Manifest, backends: seq<Descriptor>, policies: seq<Policy>, values: seq<string>,
                c: Candidate, k: nat) returns (p: Plan)
    requires Offers(m, c) && TakesFirst(m, backends, Needed(values), c, k)
    requires NoneBefore(m, backends, Needed(values), c, backends[k].id)
    ensures IsRoute(m, backends, policies, values, p)
    ensures p.requested == requested && p.backendId == backends[k].id && p.context == backends[k].context
  {
    var names := ListSet(Needed(values));
    AtMostIsTotalPreorder();
    var required := SortedPermutation(names, AtMost);
    PermutationKeepsDistinct(names, required);
    var policyIds := SortedPermutation(MatchIds(policies, m.architecture, m.parameterClass, c.kind), AtMost);
    p := Plan(requested, m.id, backends[k].id, c.kind, c.uri, required, backends[k].context, policyIds);
    assert ChosenCandidate(p) == c;
  }

  /** Any backend that ties for the least choice is routed to in some sorting. */
  lemma TiedIsTakenSomewhere(requested: string, m: Manifest, given: seq<Descriptor>, policies: seq<Policy>,
                             values: seq<string>, c: Candidate, d: Descriptor)
    returns (backends: seq<Descriptor>, p: Plan)
    requires Usable(m, given, Needed(values), c, d) && NoneBefore(m, given, Needed(values), c, d.id)
    ensures IsSorting(given, backends) && IsRoute(m, backends, policies, values, p)
    ensures p.requested == requested && p.context == d.context
  {
    var needed := Needed(values);
    var k;
    backends, k := SortingWithFirst(given, d);
    forall x, e ensures Usable(m, given, needed, x, e) <==> Usable(m, backends, needed, x, e) {
      UsableIgnoresOrder(m, m, given, backends, needed, x, e);
    }
    forall j | 0 <= j < k ensures !Serves(m, c, backends[j], needed) {
      assert backends[j] in backends;
      assert Before(c, backends[j].id, c, d.id);
    }
    p := RouteTo(requested, m, backends, policies, values, c, k);
  }

  /** `New` accepts backends that share an id. A request then has the same plan in whatever order `New` is given
      the backends, and its sort leaves them, exactly when the backends that tie for the least choice report
      the same context. */
  lemma RouteIgnoresTiesExactly(m: Manifest, given: seq<Descriptor>, policies: seq<Policy>, values: seq<string>)
    ensures (forall bs, bs', p, q ::
               && IsSorting(given, bs) && IsRoute(m, bs, policies, values, p)
               && IsSorting(given, bs') && IsRoute(m, bs', policies, values, q)
               && p.requested == q.requested
               ==> p == q)
            <==> TiesAgree(m, given, Needed(values))
  {
    var needed := Needed(values);
    if TiesAgree(m, given, needed) {
      forall bs, bs', p, q | && IsSorting(given, bs) && IsRoute(m, bs, policies, values, p)
                             && IsSorting(given, bs') && IsRoute(m, bs', policies, values, q)
                             && p.requested == q.requested
        ensures p == q
      {
        TiesAgreeInAnyOrder(m, given, bs, needed);
        RouteIgnoresOrder(m, m, bs, bs', policies, policies, values, values, p, q);
      }
    } else {
      var c, d, d' :| Usable(m, given, needed, c, d) && Usable(m, given, needed, c, d') && d.id == d'.id
                      && NoneBefore(m, given, needed, c, d.id) && d.context != d'.context;
      var bs, p := TiedIsTakenSomewhere(m.id, m, given, policies, values, c, d);
      var bs', q := TiedIsTakenSomewhere(m.id, m, given, policies, values, c, d');
    }
  }

  lemma TiesAgreeInAnyOrder(m: Manifest, given: seq<Descriptor>, backends: seq<Descriptor>, needed: set<string>)
    requires TiesAgree(m, given, needed) && multiset(given) == multiset(backends)
    ensures TiesAgree(m, backends, needed)
  {
    forall c, d ensures Usable(m, given, needed, c, d) <==> Usable(m, backends, needed, c, d) {
      UsableIgnoresOrder(m, m, given, backends, needed, c, d);
    }
    forall c, id | NoneBefore(m, backends, needed, c, id) ensures NoneBefore(m, given, needed, c, id) {}
  }

  /** The order at work: two ready backends of one id and kind, and the first of them is taken. */
  lemma TiedBackendsFollowTheOrder(m: Manifest, d: Descriptor, d': Descriptor, policies: seq<Policy>)
    returns (p: Plan, q: Plan)
    requires |m.artifacts| == 1 && d.kind == d'.kind == KindOf(m, m.artifacts[0])
    requires d.state == d'.state == Ready && d.id == d'.id && d.context != d'.context
    ensures IsSorting([d, d'], [d, d']) && IsRoute(m, [d, d'], policies, [], p) && p.context == d.context
    ensures IsSorting([d, d'], [d', d]) && IsRoute(m, [d', d], policies, [], q) && q.context == d'.context
    ensures p.requested == q.requested && p != q
  {
    var c := CandidateOf(m, m.artifacts[0]);
    assert m.artifacts[0] in m.artifacts;
    LessIsTotal(d.id, d.id);
    assert multiset([d, d']) == multiset{d, d'} == multiset([d', d]);
    assert TakesFirst(m, [d, d'], Needed([]), c, 0) && TakesFirst(m, [d', d], Needed([]), c, 0);
    p := RouteTo(m.id, m, [d, d'], policies, [], c, 0);
    q := RouteTo(m.id, m, [d', d], policies, [], c, 0);
  }
}
