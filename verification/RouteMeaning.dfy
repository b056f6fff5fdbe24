/** What a route is, told from the fields of the model, the backends and the policies. */
module RouteMeaning {
  import opened Wrappers
  import opened Text
  import opened Sorting
  import opened Manifests
  import R = Registry
  import opened RouterSpec
  import opened RouterProofs

  // ---------------------------------------------------------------- what models and backends can do

  /** Names that depend on what the model can do. */
  lemma ModelNames(m: Manifest)
    ensures ModelSupports(m, "inference.text") <==> m.capabilities.text
    ensures ModelSupports(m, "multimodal.vision") <==> m.capabilities.vision
    ensures ModelSupports(m, "multimodal.audio") <==> m.capabilities.audio
    ensures ModelSupports(m, "embeddings") <==> m.capabilities.embeddings
    ensures ModelSupports(m, "reranking") <==> m.capabilities.reranking
    ensures ModelSupports(m, "structured_output") <==> m.capabilities.structuredOutput
  {
  }

  lemma ModelNamesOfTwoFields(m: Manifest)
    ensures ModelSupports(m, "reasoning.control") <==> m.capabilities.thinking || m.capabilities.reasoningControl
    ensures ModelSupports(m, "tools.calling") <==> m.capabilities.tools
    ensures ModelSupports(m, "tools.streaming") <==> m.capabilities.tools && m.capabilities.toolStreaming
  {
  }

  lemma ArchitectureNames(m: Manifest)
    ensures ModelSupports(m, "architecture.dense") <==> m.architectureClass == "dense"
    ensures ModelSupports(m, "architecture.moe") <==> m.architectureClass == "moe"
    ensures ModelSupports(m, "moe.expert_offload") <==> m.architectureClass == "moe"
    ensures ModelSupports(m, "moe.expert_parallel") <==> m.architectureClass == "moe"
  {
  }

  /** Names that are left to the backend alone. */
  const EXECUTION_NAMES: set<string> :=
    {"speculative.mtp", "speculative.draft_model", "cache.kv_offload", "cache.prompt_cache", "streaming.content",
     "streaming.reasoning", "streaming.tool_arguments", "placement.cpu", "placement.gpu", "placement.hybrid",
     "context.override"}

  const MODEL_NAMES: set<string> :=
    {"inference.text", "architecture.dense", "architecture.moe", "multimodal.vision", "multimodal.audio", "embeddings",
     "reranking", "reasoning.control", "tools.calling", "tools.streaming", "structured_output", "moe.expert_offload",
     "moe.expert_parallel"}

  /** A name that is neither is supported by no model; an execution name by every one. */
  lemma OtherNames(m: Manifest, name: string)
    requires name !in MODEL_NAMES
    ensures ModelSupports(m, name) <==> name in EXECUTION_NAMES
  {
  }

  /** The backend says so: supported, or supported under conditions. */
  predicate Offered(d: Descriptor, name: string) {
    name in d.supports && (d.supports[name] == Supported || d.supports[name] == Conditional)
  }

  /** A backend can serve an artifact of a model: it is of the artifact's kind, or of the model's when the artifact
      names none, it is neither disabled nor unavailable, and both model and backend support all that is asked. */
  ghost predicate CanServe(m: Manifest, a: Artifact, d: Descriptor, values: seq<string>) {
    && d.kind == (if a.backend != "" then a.backend else m.backendType)
    && (d.state == Ready || d.state == StateUnknown)
    && forall v :: v in values && v != "" ==> ModelSupports(m, v) && Offered(d, v)
  }

  lemma MeetsExactly(m: Manifest, d: Descriptor, name: string)
    ensures Meets(m, d, name) <==> ModelSupports(m, name) && Offered(d, name)
  {
  }

  lemma ServesExactly(m: Manifest, a: Artifact, d: Descriptor, values: seq<string>)
    ensures Serves(m, CandidateOf(m, a), d, Needed(values)) <==> CanServe(m, a, d, values)
  {
    forall name ensures Meets(m, d, name) <==> ModelSupports(m, name) && Offered(d, name) {
      MeetsExactly(m, d, name);
    }
    assert forall v :: v in Needed(values) <==> v in values && v != "";
  }

  /** There is a route exactly when some backend can serve some artifact. */
  lemma RoutableExactly(m: Manifest, backends: seq<Descriptor>, values: seq<string>)
    ensures Routable(m, backends, values)
            <==> exists a, d :: a in m.artifacts && d in backends && CanServe(m, a, d, values)
  {
    forall a, d ensures Serves(m, CandidateOf(m, a), d, Needed(values)) <==> CanServe(m, a, d, values) {
      ServesExactly(m, a, d, values);
    }
    if c, d :| Usable(m, backends, Needed(values), c, d) {
      var a :| a in m.artifacts && CandidateOf(m, a) == c;
      assert CanServe(m, a, d, values);
    }
    if a, d :| a in m.artifacts && d in backends && CanServe(m, a, d, values) {
      assert Usable(m, backends, Needed(values), CandidateOf(m, a), d);
    }
  }

  /** A name resolves to the manifest of the list whose id it is, or one of whose aliases. */
  lemma ResolvesExactly(ms: seq<Manifest>, name: string, m: Manifest)
    ensures R.Resolves(ms, name, m) <==> m in ms && (name == m.id || name in m.aliases)
  {
  }

  // ---------------------------------------------------------------- what a plan says

  /** A plan names a backend that can serve an artifact, and that artifact. */
  lemma RouteServes(m: Manifest, backends: seq<Descriptor>, policies: seq<Policy>, values: seq<string>, p: Plan)
    returns (a: Artifact, k: nat)
    requires IsRoute(m, backends, policies, values, p)
    ensures a in m.artifacts && a.uri == p.uri
    ensures k < |backends| && CanServe(m, a, backends[k], values)
    ensures backends[k].id == p.backendId && backends[k].kind == p.kind && backends[k].context == p.context
    ensures forall j :: 0 <= j < k ==> !CanServe(m, a, backends[j], values)
    ensures p.canonical == m.id
  {
    k := Taken(m, backends, policies, values, p);
    a :| a in m.artifacts && CandidateOf(m, a) == ChosenCandidate(p);
    forall j | 0 <= j <= k ensures CanServe(m, a, backends[j], values) <==> j == k {
      ServesExactly(m, a, backends[j], values);
    }
  }

  /** And no choice that could serve is before it: by kind, then by artifact URI, then by backend id. */
  lemma RouteIsFirst(m: Manifest, backends: seq<Descriptor>, policies: seq<Policy>, values: seq<string>, p: Plan,
                     a: Artifact, d: Descriptor)
    requires IsRoute(m, backends, policies, values, p)
    requires a in m.artifacts && d in backends && CanServe(m, a, d, values)
    ensures AtMost(p.kind, d.kind)
    ensures p.kind == d.kind ==> AtMost(p.uri, a.uri)
    ensures p.kind == d.kind && p.uri == a.uri ==> AtMost(p.backendId, d.id)
  {
    ServesExactly(m, a, d, values);
    assert Usable(m, backends, Needed(values), CandidateOf(m, a), d);
    LessIsTotal(p.kind, d.kind);
    LessIsTotal(p.uri, a.uri);
    LessIsTotal(p.backendId, d.id);
  }

  /** What goes with it: the requirements without blanks and repetitions, sorted, and the policies for the model's
      architecture, its size and the backend's kind, sorted. */
  lemma RouteLists(m: Manifest, backends: seq<Descriptor>, policies: seq<Policy>, values: seq<string>, p: Plan)
    requires IsRoute(m, backends, policies, values, p)
    ensures forall v :: v in p.required <==> v in values && v != ""
    ensures forall i, j :: 0 <= i < j < |p.required| ==> Less(p.required[i], p.required[j])
    ensures forall i, j :: 0 <= i < j < |p.policyIds| ==> AtMost(p.policyIds[i], p.policyIds[j])
    ensures forall id :: id in p.policyIds
                         <==> exists q :: q in policies && q.id == id
                                          && q.family == m.architecture && q.backendKind == p.kind
                                          && (m.parameterClass in q.variants || "*" in q.variants)
  {
    forall i, j | 0 <= i < j < |p.required| ensures Less(p.required[i], p.required[j]) {
      assert AtMost(p.required[i], p.required[j]);
    }
    SameMembers(p.policyIds, MatchIds(policies, m.architecture, m.parameterClass, p.kind));
    forall id ensures id in p.policyIds <==> exists q :: q in policies && q.id == id
                                                         && Matches(q, m.architecture, m.parameterClass, p.kind) {
      MatchIdsMembers(policies, m.architecture, m.parameterClass, p.kind, id);
    }
  }

  lemma {:induction false} MatchIdsMembers(policies: seq<Policy>, family: string, variant: string, kind: string,
                                           id: string)
    ensures id in MatchIds(policies, family, variant, kind)
            <==> exists q :: q in policies && q.id == id && Matches(q, family, variant, kind)
  {
    if policies != [] {
      var init, last := policies[..|policies| - 1], policies[|policies| - 1];
      MatchIdsMembers(init, family, variant, kind, id);
      assert policies == init + [last];
    }
  }
}
