/** Model manifests: the fields the registry and the router read, and the checks on them. */
module Manifests {
  import opened Wrappers
  import opened Text
  import opened Sorting
  import SemVer

  datatype Capabilities = Capabilities(
    text: bool, vision: bool, audio: bool, embeddings: bool, reranking: bool, tools: bool,
    toolStreaming: bool, thinking: bool, reasoningControl: bool, structuredOutput: bool)

  /** `fieldsValid`: the URI has a scheme and no blanks, and digest, format and role are well formed. */
  datatype Artifact = Artifact(uri: string, backend: string, fieldsValid: bool)

  /** `fieldsValid` stands for the checks on single fields that nothing else here depends on. */
  datatype Manifest = Manifest(
    id: string, displayName: string, aliases: seq<string>, backendType: string, artifacts: seq<Artifact>,
    architecture: string, architectureClass: string, parameterClass: string, capabilities: Capabilities,
    minVersion: string, maxVersion: string, state: string, fieldsValid: bool)

  /** The names of the capabilities, in the order of the flags. */
  const CAPABILITIES: seq<string> :=
    ["text", "vision", "audio", "embeddings", "reranking", "tools", "tool-streaming", "thinking",
     "reasoning-control", "structured-output"]

  function Flags(c: Capabilities): (flags: seq<bool>)
    ensures |flags| == 10
  {
    [c.text, c.vision, c.audio, c.embeddings, c.reranking, c.tools, c.toolStreaming, c.thinking,
     c.reasoningControl, c.structuredOutput]
  }

  /** `names` are those of the first `n` capabilities that are there, each once. */
  ghost predicate NamesOfFirst(all: seq<string>, flags: seq<bool>, n: nat, names: seq<string>)
    requires n <= |flags| == |all|
  {
    Distinct(names) && forall s :: s in names <==> exists i :: 0 <= i < n && flags[i] && all[i] == s
  }

  ghost predicate AreCapabilityNames(c: Capabilities, names: seq<string>) {
    SortedBy(names, AtMost) && NamesOfFirst(CAPABILITIES, Flags(c), 10, names)
  }

  lemma CapabilitiesAreDistinct()
    ensures |CAPABILITIES| == 10 && Distinct(CAPABILITIES)
  {
    var n := seq(|CAPABILITIES|, i requires 0 <= i < |CAPABILITIES| => |CAPABILITIES[i]|);
    assert n == [4, 6, 5, 10, 9, 5, 14, 8, 17, 17];
    assert CAPABILITIES[2][0] == 'a' && CAPABILITIES[5][0] == 't';
    assert CAPABILITIES[8][0] == 'r' && CAPABILITIES[9][0] == 's';
    forall i, j | 0 <= i < j < |CAPABILITIES| ensures CAPABILITIES[i] != CAPABILITIES[j] {
      assert n[i] == |CAPABILITIES[i]| && n[j] == |CAPABILITIES[j]|;
    }
  }

  method CapabilityNames(c: Capabilities) returns (names: seq<string>)
    ensures AreCapabilityNames(c, names)
  {
    CapabilitiesAreDistinct();
    var values := FirstNames(c, CAPABILITIES, Flags(c));
    values := LastNames(c, CAPABILITIES, Flags(c), values);
    AtMostIsTotalPreorder();
    names := SortSlice(values, AtMost);
    PermutationKeepsDistinct(values, names);
  }

  method FirstNames(c: Capabilities, all: seq<string>, ghost flags: seq<bool>) returns (names: seq<string>)
    requires |all| == |flags| == 10 && Distinct(all)
    requires flags[..5] == [c.text, c.vision, c.audio, c.embeddings, c.reranking]
    ensures NamesOfFirst(all, flags, 5, names)
  {
    assert forall i :: 0 <= i < 5 ==> flags[i] == flags[..5][i];
    names := [];
    names := AppendName(names, c.text, 0, all, flags);
    names := AppendName(names, c.vision, 1, all, flags);
    names := AppendName(names, c.audio, 2, all, flags);
    names := AppendName(names, c.embeddings, 3, all, flags);
    names := AppendName(names, c.reranking, 4, all, flags);
  }

  method LastNames(c: Capabilities, all: seq<string>, ghost flags: seq<bool>, first: seq<string>)
    returns (names: seq<string>)
    requires |all| == |flags| == 10 && Distinct(all) && NamesOfFirst(all, flags, 5, first)
    requires flags[5..] == [c.tools, c.toolStreaming, c.thinking, c.reasoningControl, c.structuredOutput]
    ensures NamesOfFirst(all, flags, 10, names)
  {
    assert forall i :: 5 <= i < 10 ==> flags[i] == flags[5..][i - 5];
    names := first;
    names := AppendName(names, c.tools, 5, all, flags);
    names := AppendName(names, c.toolStreaming, 6, all, flags);
    names := AppendName(names, c.thinking, 7, all, flags);
    names := AppendName(names, c.reasoningControl, 8, all, flags);
    names := AppendName(names, c.structuredOutput, 9, all, flags);
  }

  /** One of the ten conditional appends. */
  method AppendName(values: seq<string>, has: bool, n: nat, all: seq<string>, ghost flags: seq<bool>)
    returns (names: seq<string>)
    requires n < |flags| == |all| && Distinct(all) && flags[n] == has
    requires NamesOfFirst(all, flags, n, values)
    ensures NamesOfFirst(all, flags, n + 1, names)
  {
    if has {
      ExtendDistinct(values, all[n]);
    }
    return if has then values + [all[n]] else values;
  }

  lemma CapabilityNamesAreUnique(c: Capabilities, a: seq<string>, b: seq<string>)
    requires AreCapabilityNames(c, a) && AreCapabilityNames(c, b)
    ensures a == b
  {
    SortedSetIsUnique(a, b);
  }

  const BACKEND_TYPES := {"ollama-adapter", "llama.cpp", "mlx", "vllm", "gguf", "safetensors", "external"}

  predicate IsLowerOrDigit(c: char) { 'a' <= c <= 'z' || '0' <= c <= '9' }

  predicate IsAlphanumeric(c: char) { IsLowerOrDigit(c) || 'A' <= c <= 'Z' }

  predicate ValidId(id: string) {
    1 <= |id| <= 128 && IsLowerOrDigit(id[0])
    && forall i :: 1 <= i < |id| ==> IsLowerOrDigit(id[i]) || id[i] in {'.', '_', '-'}
  }

  predicate ValidAlias(a: string) {
    1 <= |a| <= 160 && IsAlphanumeric(a[0])
    && forall i :: 1 <= i < |a| ==> IsAlphanumeric(a[i]) || a[i] in {'.', '_', ':', '/', '-'}
  }

  /** Every identifier a manifest answers to. */
  function Names(m: Manifest): seq<string> { [m.id] + m.aliases }

  /** `validateAliases` as the source writes it, with its set of seen names. */
  method ValidateAliases(m: Manifest) returns (ok: bool)
    ensures ok <==> (forall i :: 0 <= i < |m.aliases| ==> ValidAlias(m.aliases[i])) && Distinct(Names(m))
  {
    var seen := {m.id};
    for i := 0 to |m.aliases|
      invariant forall k :: 0 <= k < i ==> ValidAlias(m.aliases[k])
      invariant Distinct(Names(m)[..i + 1])
      invariant forall s :: s in seen <==> s in Names(m)[..i + 1]
    {
      assert Names(m)[i + 1] == m.aliases[i];
      if !ValidAlias(m.aliases[i]) {
        return false;
      }
      if m.aliases[i] in seen {
        return false;
      }
      seen := seen + {m.aliases[i]};
      assert Names(m)[..i + 2] == Names(m)[..i + 1] + [m.aliases[i]];
    }
    assert Names(m)[..|Names(m)|] == Names(m);
    return true;
  }

  const NUL: char := '\0'

  /** The separator-joined key under which artifacts are deduplicated. */
  function ArtifactKey(backend: string, uri: string): string { backend + [NUL] + uri }

  predicate ValidArtifact(a: Artifact) {
    a.fieldsValid && (a.backend == "" || a.backend in BACKEND_TYPES)
  }

  /** The key is ambiguous only for backends that contain the separator, which no valid artifact has. */
  lemma KeysAreInjective(backend: string, uri: string, backend': string, uri': string)
    requires NUL !in backend && NUL !in backend'
    requires ArtifactKey(backend, uri) == ArtifactKey(backend', uri')
    ensures backend == backend' && uri == uri'
  {
    var key := ArtifactKey(backend, uri);
    assert key[|backend|] == NUL && key[|backend'|] == NUL;
    assert forall i :: 0 <= i < |backend| ==> key[i] == backend[i];
    assert forall i :: 0 <= i < |backend'| ==> key[i] == backend'[i];
    assert key[..|backend|] == backend && key[|backend| + 1..] == uri;
    assert key[..|backend'|] == backend' && key[|backend'| + 1..] == uri';
  }

  lemma BackendsHaveNoSeparator(backend: string)
    requires backend == "" || backend in BACKEND_TYPES
    ensures NUL !in backend
  {
  }

  /** Artifacts are distinct as (backend, URI) pairs. */
  predicate DistinctArtifacts(artifacts: seq<Artifact>) {
    forall i, j :: 0 <= i < j < |artifacts| ==>
      artifacts[i].backend != artifacts[j].backend || artifacts[i].uri != artifacts[j].uri
  }

  /** `validateArtifacts` as the source writes it, with its set of seen keys. */
  method ValidateArtifacts(artifacts: seq<Artifact>) returns (ok: bool)
    ensures ok <==> artifacts != [] && (forall i :: 0 <= i < |artifacts| ==> ValidArtifact(artifacts[i]))
                    && DistinctArtifacts(artifacts)
  {
    if artifacts == [] {
      return false;
    }
    var seen := {};
    for i := 0 to |artifacts|
      invariant forall k :: 0 <= k < i ==> ValidArtifact(artifacts[k])
      invariant DistinctArtifacts(artifacts[..i])
      invariant forall key :: key in seen <==>
                  exists k :: 0 <= k < i && key == ArtifactKey(artifacts[k].backend, artifacts[k].uri)
    {
      var a := artifacts[i];
      var key := ArtifactKey(a.backend, a.uri);
      if key in seen {
        ghost var k :| 0 <= k < i && key == ArtifactKey(artifacts[k].backend, artifacts[k].uri);
        if ValidArtifact(a) {
          BackendsHaveNoSeparator(a.backend);
          BackendsHaveNoSeparator(artifacts[k].backend);
          KeysAreInjective(a.backend, a.uri, artifacts[k].backend, artifacts[k].uri);
        }
        return false;
      }
      seen := seen + {key};
      if !a.fieldsValid || (a.backend != "" && a.backend !in BACKEND_TYPES) {
        return false;
      }
      assert forall k :: 0 <= k < i && artifacts[k].backend == a.backend && artifacts[k].uri == a.uri
                         ==> ArtifactKey(artifacts[k].backend, artifacts[k].uri) == key;
      assert artifacts[..i + 1] == artifacts[..i] + [a];
    }
    assert artifacts[..|artifacts|] == artifacts;
    return true;
  }

  predicate DeclaresCapability(c: Capabilities) {
    c.text || c.vision || c.audio || c.embeddings || c.reranking || c.tools || c.thinking || c.reasoningControl
    || c.structuredOutput
  }

  /** The manifests `Validate` accepts. */
  predicate Validates(m: Manifest) {
    && ValidId(m.id)
    && (forall i :: 0 <= i < |m.aliases| ==> ValidAlias(m.aliases[i])) && Distinct(Names(m))
    && m.backendType in BACKEND_TYPES
    && m.artifacts != [] && (forall i :: 0 <= i < |m.artifacts| ==> ValidArtifact(m.artifacts[i]))
    && DistinctArtifacts(m.artifacts)
    && DeclaresCapability(m.capabilities) && (m.capabilities.toolStreaming ==> m.capabilities.tools)
    && SemVer.CompatibilityProblem(m.minVersion, m.maxVersion) == None
    && m.fieldsValid
  }

  method Validate(m: Manifest) returns (ok: bool)
    ensures ok <==> Validates(m)
  {
    if !ValidId(m.id) {
      return false;
    }
    ok := ValidateAliases(m);
    if !ok || m.backendType !in BACKEND_TYPES {
      return false;
    }
    ok := ValidateArtifacts(m.artifacts);
    if !ok || !DeclaresCapability(m.capabilities) || (m.capabilities.toolStreaming && !m.capabilities.tools) {
      return false;
    }
    var err := SemVer.ValidateCompatibility(m.minVersion, m.maxVersion);
    return err == None && m.fieldsValid;
  }

  // ---------------------------------------------------------------- what validation accepts, by field

  /** Identifiers by length and character code: small letters and digits, then also dot, underscore and hyphen. */
  lemma IdsExactly(id: string)
    ensures ValidId(id)
            <==> 1 <= |id| <= 128
                 && (forall i :: 0 <= i < |id| ==>
                       || 97 <= id[i] as int <= 122 || 48 <= id[i] as int <= 57
                       || (i > 0 && id[i] as int in {46, 95, 45}))
  {
  }

  /** Aliases: letters and digits, then also dot, underscore, colon, slash and hyphen. */
  lemma AliasesExactly(a: string)
    ensures ValidAlias(a)
            <==> 1 <= |a| <= 160
                 && (forall i :: 0 <= i < |a| ==>
                       || 97 <= a[i] as int <= 122 || 65 <= a[i] as int <= 90 || 48 <= a[i] as int <= 57
                       || (i > 0 && a[i] as int in {46, 95, 58, 47, 45}))
  {
  }

  lemma DistinctNames(m: Manifest)
    ensures Distinct(Names(m)) <==> m.id !in m.aliases && Distinct(m.aliases)
  {
    var names := Names(m);
    assert names[1..] == m.aliases;
    if Distinct(names) {
      forall i, j | 0 <= i < j < |m.aliases| ensures m.aliases[i] != m.aliases[j] {
        assert names[i + 1] != names[j + 1];
      }
      forall i | 0 <= i < |m.aliases| ensures m.aliases[i] != m.id {
        assert names[0] != names[i + 1];
      }
    }
  }

  /** The kinds of backend there are. */
  predicate KnownBackend(backend: string) {
    backend in {"ollama-adapter", "llama.cpp", "mlx", "vllm", "gguf", "safetensors", "external"}
  }

  /** What keeps a manifest out, field by field: its names, */
  lemma RejectedByName(m: Manifest)
    ensures !ValidId(m.id) || !Distinct(m.aliases) ==> !Validates(m)
    ensures (exists a :: a in m.aliases && (!ValidAlias(a) || a == m.id)) ==> !Validates(m)
  {
    DistinctNames(m);
  }

  /** its artifacts, */
  lemma RejectedByArtifact(m: Manifest)
    ensures m.artifacts == [] || !DistinctArtifacts(m.artifacts) ==> !Validates(m)
    ensures (exists a :: a in m.artifacts && (!a.fieldsValid || (a.backend != "" && !KnownBackend(a.backend)))) ==>
              !Validates(m)
  {
    if a :| a in m.artifacts && (!a.fieldsValid || (a.backend != "" && !KnownBackend(a.backend))) {
      assert !ValidArtifact(a);
    }
  }

  /** its backend, its flags and any of its other fields. */
  lemma RejectedByField(m: Manifest)
    ensures !KnownBackend(m.backendType) || !m.fieldsValid ==> !Validates(m)
    ensures m.capabilities.toolStreaming && !m.capabilities.tools ==> !Validates(m)
  {
  }

  /** A manifest must declare something it can do, tool streaming alone not counting. */
  lemma CapabilitiesRequired(m: Manifest)
    requires forall i :: 0 <= i < 10 && Flags(m.capabilities)[i] ==> i == 6
    ensures !Validates(m)
  {
    SomeCapability(m.capabilities);
  }

  /** Its range of runtime versions must be one: both ends versions, the upper one optional and not before the lower. */
  lemma RangeRequired(m: Manifest)
    requires Validates(m)
    ensures SemVer.Parse(m.minVersion).Ok?
    ensures m.maxVersion != "" ==>
              && SemVer.Parse(m.maxVersion).Ok?
              && SemVer.Compare(SemVer.Parse(m.maxVersion).value, SemVer.Parse(m.minVersion).value) >= 0
  {
  }

  /** And nothing else keeps it out. */
  lemma AcceptedByField(m: Manifest)
    requires ValidId(m.id) && m.id !in m.aliases && Distinct(m.aliases) && KnownBackend(m.backendType)
    requires forall a :: a in m.aliases ==> ValidAlias(a)
    requires m.artifacts != [] && DistinctArtifacts(m.artifacts)
    requires forall a :: a in m.artifacts ==> a.fieldsValid && (a.backend == "" || KnownBackend(a.backend))
    requires exists i :: 0 <= i < 10 && i != 6 && Flags(m.capabilities)[i]
    requires m.capabilities.toolStreaming ==> m.capabilities.tools
    requires SemVer.CompatibilityProblem(m.minVersion, m.maxVersion) == None && m.fieldsValid
    ensures Validates(m)
  {
    DistinctNames(m);
    SomeCapability(m.capabilities);
    forall i | 0 <= i < |m.artifacts| ensures ValidArtifact(m.artifacts[i]) {
      assert m.artifacts[i] in m.artifacts;
    }
  }

  lemma SomeCapability(c: Capabilities)
    ensures DeclaresCapability(c) <==> exists i :: 0 <= i < 10 && i != 6 && Flags(c)[i]
  {
    var f := Flags(c);
    if DeclaresCapability(c) {
      assert f[0] || f[1] || f[2] || f[3] || f[4] || f[5] || f[7] || f[8] || f[9];
    }
  }

  /** The name of each capability. */
  lemma CapabilityNamesMean(c: Capabilities, names: seq<string>)
    requires AreCapabilityNames(c, names)
    ensures ("text" in names <==> c.text) && ("vision" in names <==> c.vision) && ("audio" in names <==> c.audio)
    ensures ("embeddings" in names <==> c.embeddings) && ("reranking" in names <==> c.reranking)
    ensures ("tools" in names <==> c.tools) && ("tool-streaming" in names <==> c.toolStreaming)
    ensures ("thinking" in names <==> c.thinking) && ("reasoning-control" in names <==> c.reasoningControl)
    ensures "structured-output" in names <==> c.structuredOutput
  {
    CapabilitiesAreDistinct();
    var f := Flags(c);
    forall i | 0 <= i < 10 ensures CAPABILITIES[i] in names <==> f[i] {}
    assert CAPABILITIES[0] == "text" && CAPABILITIES[1] == "vision" && CAPABILITIES[2] == "audio";
    assert CAPABILITIES[3] == "embeddings" && CAPABILITIES[4] == "reranking" && CAPABILITIES[5] == "tools";
    assert CAPABILITIES[6] == "tool-streaming" && CAPABILITIES[7] == "thinking";
    assert CAPABILITIES[8] == "reasoning-control" && CAPABILITIES[9] == "structured-output";
  }
}
