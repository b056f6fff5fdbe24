/** Routing on values: backends, policies, and what makes a (kind, artifact, backend) choice the route. */
module RouterSpec {
  import opened Wrappers
  import opened Text
  import opened Sorting
  import opened Manifests

  datatype Support = Supported | Unsupported | Conditional | Unknown

  datatype BackendState = Ready | StateUnknown | Unavailable | Disabled

  datatype ContextCapabilities = ContextCapabilities(managed: bool, override_: Support, verified: bool, nativeMax: int)

  /** `supports` holds the support states by capability name; `fieldsValid` stands for the descriptor's own checks. */
  datatype Descriptor = Descriptor(id: string, kind: string, state: BackendState, supports: map<string, Support>,
                                   context: ContextCapabilities, fieldsValid: bool)
  {
    function State(name: string): Support { if name in supports then supports[name] else Unknown }
  }

  datatype Policy = Policy(id: string, family: string, variants: seq<string>, backendKind: string)

  datatype Plan = Plan(requested: string, canonical: string, backendId: string, kind: string, uri: string,
                       required: seq<string>, context: ContextCapabilities, policyIds: seq<string>)

  datatype RouteError = ModelNotFound | NoCompatibleBackend

  // ---------------------------------------------------------------- requirements

  predicate ModelSupports(m: Manifest, name: string) {
    match name
    case "inference.text" => m.capabilities.text
    case "architecture.dense" => m.architectureClass == "dense"
    case "architecture.moe" => m.architectureClass == "moe"
    case "multimodal.vision" => m.capabilities.vision
    case "multimodal.audio" => m.capabilities.audio
    case "embeddings" => m.capabilities.embeddings
    case "reranking" => m.capabilities.reranking
    case "reasoning.control" => m.capabilities.thinking || m.capabilities.reasoningControl
    case "tools.calling" => m.capabilities.tools
    case "tools.streaming" => m.capabilities.tools && m.capabilities.toolStreaming
    case "structured_output" => m.capabilities.structuredOutput
    case _ => ExecutionSupports(m, name)
  }

  /** Capabilities of the execution alone; unknown names are rejected. */
  predicate ExecutionSupports(m: Manifest, name: string) {
    if name == "moe.expert_offload" || name == "moe.expert_parallel" then m.architectureClass == "moe"
    else name in {"speculative.mtp", "speculative.draft_model", "cache.kv_offload", "cache.prompt_cache",
                  "streaming.content", "streaming.reasoning", "streaming.tool_arguments",
                  "placement.cpu", "placement.gpu", "placement.hybrid", "context.override"}
  }

  predicate Meets(m: Manifest, d: Descriptor, name: string) {
    ModelSupports(m, name) && (d.State(name) == Supported || d.State(name) == Conditional)
  }

  /** The requirements as a set: empty names do not count. */
  function Needed(values: seq<string>): set<string> { set v | v in values && v != "" }

  predicate Satisfies(m: Manifest, d: Descriptor, needed: set<string>) {
    forall name :: name in needed ==> Meets(m, d, name)
  }

  // ---------------------------------------------------------------- choices

  datatype Candidate = Candidate(kind: string, uri: string)

  function KindOf(m: Manifest, a: Artifact): string { if a.backend == "" then m.backendType else a.backend }

  function CandidateOf(m: Manifest, a: Artifact): Candidate { Candidate(KindOf(m, a), a.uri) }

  predicate Offers(m: Manifest, c: Candidate) {
    exists a :: a in m.artifacts && CandidateOf(m, a) == c
  }

  predicate CandidateAtMost(a: Candidate, b: Candidate) {
    if a.kind == b.kind then AtMost(a.uri, b.uri) else Less(a.kind, b.kind)
  }

  predicate IdAtMost(a: Descriptor, b: Descriptor) { AtMost(a.id, b.id) }

  predicate Serves(m: Manifest, c: Candidate, d: Descriptor, needed: set<string>) {
    d.kind == c.kind && d.state != Disabled && d.state != Unavailable && Satisfies(m, d, needed)
  }

  /** A candidate of the manifest and a backend that can serve it. */
  predicate Usable(m: Manifest, backends: seq<Descriptor>, needed: set<string>, c: Candidate, d: Descriptor) {
    d in backends && Offers(m, c) && Serves(m, c, d, needed)
  }

  /** The order of choices: backend kind, then artifact URI, then backend id. */
  predicate Before(c: Candidate, id: string, c': Candidate, id': string) {
    if c.kind != c'.kind then Less(c.kind, c'.kind)
    else if c.uri != c'.uri then Less(c.uri, c'.uri)
    else Less(id, id')
  }

  // ---------------------------------------------------------------- policies

  predicate Matches(p: Policy, family: string, variant: string, kind: string) {
    p.family == family && p.backendKind == kind && (variant in p.variants || "*" in p.variants)
  }

  function MatchIds(policies: seq<Policy>, family: string, variant: string, kind: string): seq<string> {
    if policies == [] then []
    else
      var init, last := policies[..|policies| - 1], policies[|policies| - 1];
      if Matches(last, family, variant, kind) then MatchIds(init, family, variant, kind) + [last.id]
      else MatchIds(init, family, variant, kind)
  }

  // ---------------------------------------------------------------- the route

  ghost predicate IsNormalized(values: seq<string>, required: seq<string>) {
    SortedBy(required, AtMost) && Distinct(required) && forall v :: v in required <==> v in Needed(values)
  }

  function ChosenCandidate(p: Plan): Candidate { Candidate(p.kind, p.uri) }

  /** The backend at `k` is the first in the list that serves the candidate. */
  predicate TakesFirst(m: Manifest, backends: seq<Descriptor>, needed: set<string>, c: Candidate, k: nat) {
    && k < |backends|
    && Serves(m, c, backends[k], needed)
    && forall j :: 0 <= j < k ==> !Serves(m, c, backends[j], needed)
  }

  /** The plan is the least usable choice, with the first backend in the list that gives it, and everything
      that goes with it. */
  ghost predicate IsRoute(m: Manifest, backends: seq<Descriptor>, policies: seq<Policy>, values: seq<string>, p: Plan) {
    && p.canonical == m.id
    && Offers(m, ChosenCandidate(p))
    && (exists k: nat :: TakesFirst(m, backends, Needed(values), ChosenCandidate(p), k)
                         && backends[k].id == p.backendId && backends[k].context == p.context)
    && (forall c, d :: Usable(m, backends, Needed(values), c, d) ==> !Before(c, d.id, ChosenCandidate(p), p.backendId))
    && IsNormalized(values, p.required)
    && SortedBy(p.policyIds, AtMost)
    && multiset(p.policyIds) == multiset(MatchIds(policies, m.architecture, m.parameterClass, p.kind))
  }

  ghost predicate Routable(m: Manifest, backends: seq<Descriptor>, values: seq<string>) {
    exists c, d :: Usable(m, backends, Needed(values), c, d)
  }

  lemma CandidateOrderIsTotal()
    ensures TotalPreorder(CandidateAtMost)
  {
    AtMostIsTotalPreorder();
    forall x: Candidate, y: Candidate ensures CandidateAtMost(x, y) || CandidateAtMost(y, x) {
      LessIsTotal(x.kind, y.kind);
      assert AtMost(x.uri, y.uri) || AtMost(y.uri, x.uri);
    }
    forall x: Candidate, y: Candidate, z: Candidate | CandidateAtMost(x, y) && CandidateAtMost(y, z)
      ensures CandidateAtMost(x, z)
    {
      if x.kind != y.kind && y.kind != z.kind {
        LessIsTransitive(x.kind, y.kind, z.kind);
        LessIsTotal(x.kind, z.kind);
      }
    }
  }

  lemma IdOrderIsTotal()
    ensures TotalPreorder(IdAtMost)
  {
    AtMostIsTotalPreorder();
    forall x: Descriptor, y: Descriptor ensures IdAtMost(x, y) || IdAtMost(y, x) {
      assert AtMost(x.id, y.id) || AtMost(y.id, x.id);
    }
    forall x: Descriptor, y: Descriptor, z: Descriptor | IdAtMost(x, y) && IdAtMost(y, z) ensures IdAtMost(x, z) {
      assert AtMost(x.id, z.id);
    }
  }
}
