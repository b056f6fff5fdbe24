/** The router as the source writes it: a nested search over sorted candidates and sorted backends. */
module Router {
  import opened Wrappers
  import opened Text
  import opened Sorting
  import opened Manifests
  import R = Registry
  import opened RouterSpec

  /** `normalizedRequirements`: drop empty and repeated names, then sort. */
  method NormalizedRequirements(values: seq<string>) returns (normalized: seq<string>)
    ensures IsNormalized(values, normalized)
  {
    var seen: set<string> := {};
    normalized := [];
    for i := 0 to |values|
      invariant forall v :: v in seen <==> v in normalized
      invariant forall v :: v in normalized <==> v in values[..i] && v != ""
      invariant Distinct(normalized)
    {
      var value := values[i];
      assert values[..i + 1] == values[..i] + [value];
      if value == "" || value in seen {
        continue;
      }
      seen := seen + {value};
      normalized := normalized + [value];
    }
    assert values[..|values|] == values;
    AtMostIsTotalPreorder();
    var sorted := SortSlice(normalized, AtMost);
    PermutationKeepsDistinct(normalized, sorted);
    normalized := sorted;
  }

  /** No artifact kind contains the key separator. */
  ghost predicate CleanKinds(m: Manifest) {
    forall k :: 0 <= k < |m.artifacts| ==> NUL !in CandidateOf(m, m.artifacts[k]).kind
  }

  lemma ValidManifestsHaveCleanKinds(m: Manifest)
    requires Validates(m)
    ensures CleanKinds(m)
  {
    forall k | 0 <= k < |m.artifacts| ensures NUL !in CandidateOf(m, m.artifacts[k]).kind {
      assert ValidArtifact(m.artifacts[k]);
      BackendsHaveNoSeparator(CandidateOf(m, m.artifacts[k]).kind);
    }
  }

  /** `candidateArtifacts`: deduplicate by key, then sort by kind and URI. */
  method CandidateArtifacts(m: Manifest) returns (candidates: seq<Candidate>)
    requires CleanKinds(m)
    ensures SortedBy(candidates, CandidateAtMost) && Distinct(candidates)
    ensures forall c :: c in candidates <==> Offers(m, c)
  {
    var seen: set<string> := {};
    candidates := [];
    ghost var keys := [];
    for i := 0 to |m.artifacts|
      invariant |keys| == |candidates| && forall key :: key in seen <==> key in keys
      invariant forall k :: 0 <= k < |candidates| ==>
                  NUL !in candidates[k].kind && keys[k] == ArtifactKey(candidates[k].kind, candidates[k].uri)
      invariant forall k :: 0 <= k < i ==> CandidateOf(m, m.artifacts[k]) in candidates
      invariant forall k :: 0 <= k < |candidates| ==> Offers(m, candidates[k])
      invariant Distinct(candidates)
    {
      var artifact := m.artifacts[i];
      var kind := artifact.backend;
      if kind == "" {
        kind := m.backendType;
      }
      var c := Candidate(kind, artifact.uri);
      assert c == CandidateOf(m, artifact) && artifact in m.artifacts;
      var key := ArtifactKey(kind, artifact.uri);
      if key in seen {
        ghost var k :| 0 <= k < |keys| && keys[k] == key;
        KeysAreInjective(c.kind, c.uri, candidates[k].kind, candidates[k].uri);
        assert candidates[k] == c;
        continue;
      }
      NotYetAmong(candidates, keys, c);
      ExtendDistinct(candidates, c);
      keys := keys + [key];
      seen := seen + {key};
      candidates := candidates + [c];
      assert candidates[|candidates| - 1] == c;
    }
    AllOffered(m, candidates);
    CandidateOrderIsTotal();
    var sorted := SortSlice(candidates, CandidateAtMost);
    PermutationKeepsDistinct(candidates, sorted);
    candidates := sorted;
  }

  lemma NotYetAmong(candidates: seq<Candidate>, keys: seq<string>, c: Candidate)
    requires |keys| == |candidates|
    requires forall k :: 0 <= k < |candidates| ==> keys[k] == ArtifactKey(candidates[k].kind, candidates[k].uri)
    requires ArtifactKey(c.kind, c.uri) !in keys
    ensures c !in candidates
  {
    assert forall k :: 0 <= k < |candidates| ==> keys[k] in keys;
  }

  lemma AllOffered(m: Manifest, candidates: seq<Candidate>)
    requires forall k :: 0 <= k < |m.artifacts| ==> CandidateOf(m, m.artifacts[k]) in candidates
    requires forall k :: 0 <= k < |candidates| ==> Offers(m, candidates[k])
    ensures forall c :: c in candidates <==> Offers(m, c)
  {
  }

  method RequirementsSatisfied(m: Manifest, d: Descriptor, required: seq<string>) returns (ok: bool)
    ensures ok <==> forall name :: name in required ==> Meets(m, d, name)
  {
    for i := 0 to |required|
      invariant forall k :: 0 <= k < i ==> Meets(m, d, required[k])
    {
      assert required[i] in required;
      if !ModelSupports(m, required[i]) {
        assert !Meets(m, d, required[i]);
        return false;
      }
      var state := d.State(required[i]);
      if state != Supported && state != Conditional {
        assert !Meets(m, d, required[i]);
        return false;
      }
    }
    return true;
  }

  method MatchPolicies(policies: seq<Policy>, family: string, variant: string, kind: string) returns (ids: seq<string>)
    ensures SortedBy(ids, AtMost)
    ensures multiset(ids) == multiset(MatchIds(policies, family, variant, kind))
  {
    ids := [];
    for i := 0 to |policies|
      invariant ids == MatchIds(policies[..i], family, variant, kind)
    {
      assert policies[..i + 1][..i] == policies[..i];
      if policies[i].family != family || policies[i].backendKind != kind {
        continue;
      }
      if variant in policies[i].variants || "*" in policies[i].variants {
        ids := ids + [policies[i].id];
      }
    }
    assert policies[..|policies|] == policies;
    AtMostIsTotalPreorder();
    ids := SortSlice(ids, AtMost);
  }

  class Router {
    const registry: R.Registry
    const backends: seq<Descriptor>
    const policies: seq<Policy>
    ghost const manifests: seq<Manifest>

    constructor (registry: R.Registry, backends: seq<Descriptor>, policies: seq<Policy>, ghost manifests: seq<Manifest>)
      ensures this.registry == registry && this.backends == backends && this.policies == policies
              && this.manifests == manifests
    {
      this.registry, this.backends, this.policies, this.manifests := registry, backends, policies, manifests;
    }

    ghost predicate Valid()
      reads registry
    {
      registry.Represents(manifests) && R.Acceptable(manifests) && SortedBy(backends, IdAtMost)
    }

    /** The first backend in the list that serves one candidate. */
    method FirstBackend(m: Manifest, c: Candidate, required: seq<string>) returns (found: Option<nat>)
      ensures found == None ==> forall d :: d in backends ==> !Serves(m, c, d, set v | v in required)
      ensures found.Some? ==> TakesFirst(m, backends, (set v | v in required), c, found.value)
    {
      ghost var needed := set v | v in required;
      for i := 0 to |backends|
        invariant forall k :: 0 <= k < i ==> !Serves(m, c, backends[k], needed)
      {
        var d := backends[i];
        if d.kind != c.kind || d.state == Disabled || d.state == Unavailable {
          continue;
        }
        var ok := RequirementsSatisfied(m, d, required);
        assert Satisfies(m, d, needed) <==> ok;
        if !ok {
          continue;
        }
        return Some(i);
      }
      return None;
    }

    method Route(identifier: string, values: seq<string>) returns (r: Result<Plan, RouteError>)
      requires Valid()
      ensures r == Err(ModelNotFound) <==> !exists m :: R.Resolves(manifests, identifier, m)
      ensures r == Err(NoCompatibleBackend)
              ==> exists m :: R.Resolves(manifests, identifier, m) && !Routable(m, backends, values)
      ensures r.Ok? ==> r.value.requested == identifier
                        && exists m :: R.Resolves(manifests, identifier, m)
                                       && IsRoute(m, backends, policies, values, r.value)
    {
      var found := registry.Lookup(identifier, manifests);
      if found == None {
        return Err(ModelNotFound);
      }
      var m := found.value;
      ValidManifestsHaveCleanKinds(m);
      var plan := Search(identifier, m, values);
      if plan == None {
        assert R.Resolves(manifests, identifier, m) && !Routable(m, backends, values);
        return Err(NoCompatibleBackend);
      }
      assert R.Resolves(manifests, identifier, m) && IsRoute(m, backends, policies, values, plan.value);
      return Ok(plan.value);
    }

    /** The search of `Route` once the model is known. */
    method Search(identifier: string, m: Manifest, values: seq<string>) returns (plan: Option<Plan>)
      requires SortedBy(backends, IdAtMost) && CleanKinds(m)
      ensures plan == None ==> !Routable(m, backends, values)
      ensures plan.Some? ==> plan.value.requested == identifier && IsRoute(m, backends, policies, values, plan.value)
    {
      var required := NormalizedRequirements(values);
      ghost var needed := Needed(values);
      assert (set v | v in required) == needed;
      var candidates := CandidateArtifacts(m);
      for i := 0 to |candidates|
        invariant forall k, d :: 0 <= k < i && d in backends ==> !Serves(m, candidates[k], d, needed)
      {
        var c := candidates[i];
        var found := FirstBackend(m, c, required);
        if found.Some? {
          var d := backends[found.value];
          FirstIsLeast(m, backends, needed, c, found.value);
          LeastChoice(m, backends, needed, candidates, i, d);
          var policyIds := MatchPolicies(policies, m.architecture, m.parameterClass, d.kind);
          var p := Plan(identifier, m.id, d.id, d.kind, c.uri, required, d.context, policyIds);
          assert c in candidates && ChosenCandidate(p) == c;
          return Some(p);
        }
      }
      return None;
    }
  }

  /** In a list sorted by id the first backend that serves a candidate has the least id of them. */
  lemma FirstIsLeast(m: Manifest, backends: seq<Descriptor>, needed: set<string>, c: Candidate, k: nat)
    requires SortedBy(backends, IdAtMost) && TakesFirst(m, backends, needed, c, k)
    ensures forall d :: d in backends && Serves(m, c, d, needed) ==> AtMost(backends[k].id, d.id)
  {
    forall d | d in backends && Serves(m, c, d, needed) ensures AtMost(backends[k].id, d.id) {
      var j :| 0 <= j < |backends| && backends[j] == d;
      assert j == k || IdAtMost(backends[k], backends[j]);
    }
  }

  /** The first candidate with a usable backend, and its first such backend, are the least choice. */
  lemma LeastChoice(m: Manifest, backends: seq<Descriptor>, needed: set<string>, candidates: seq<Candidate>, i: nat,
                    d: Descriptor)
    requires i < |candidates| && SortedBy(candidates, CandidateAtMost) && Distinct(candidates)
    requires forall c :: c in candidates <==> Offers(m, c)
    requires forall k, x :: 0 <= k < i && x in backends ==> !Serves(m, candidates[k], x, needed)
    requires forall x :: x in backends && Serves(m, candidates[i], x, needed) ==> AtMost(d.id, x.id)
    ensures forall c, x :: Usable(m, backends, needed, c, x) ==> !Before(c, x.id, candidates[i], d.id)
  {
    forall c, x | Usable(m, backends, needed, c, x) ensures !Before(c, x.id, candidates[i], d.id) {
      var k :| 0 <= k < |candidates| && candidates[k] == c;
      LessIsTotal(c.kind, candidates[i].kind);
      LessIsTotal(c.uri, candidates[i].uri);
      LessIsTotal(d.id, x.id);
      if k > i {
        assert CandidateAtMost(candidates[i], candidates[k]);
      }
    }
  }

  /** `New`: every backend must validate; the backends are kept sorted by id. */
  method New(registry: R.Registry?, backends: seq<Descriptor>, policies: seq<Policy>, ghost manifests: seq<Manifest>)
    returns (router: Router?)
    requires registry != null ==> registry.Represents(manifests) && R.Acceptable(manifests)
    ensures router != null <==> registry != null && forall d :: d in backends ==> d.fieldsValid
    ensures router != null ==>
              && fresh(router) && router.Valid() && router.registry == registry && router.manifests == manifests
              && multiset(router.backends) == multiset(backends) && router.policies == policies
  {
    if registry == null {
      return null;
    }
    for i := 0 to |backends|
      invariant forall k :: 0 <= k < i ==> backends[k].fieldsValid
    {
      if !backends[i].fieldsValid {
        return null;
      }
    }
    IdOrderIsTotal();
    var sorted := SortSlice(backends, IdAtMost);
    router := new Router(registry, sorted, policies, manifests);
  }
}
