/** Installation is all-or-nothing, and what an interrupted one leaves behind. */
module InstallProofs {
  import opened Wrappers
  import opened InstallSpec

  // ---------------------------------------------------------------- which operations a trace holds

  lemma {:induction false} EffectsAreEffects(actions: seq<Action>, op: Op)
    requires op in Effects(actions)
    ensures exists i :: 0 <= i < |actions| && actions[i].effect == Some(op)
  {
    var init := actions[..|actions| - 1];
    if op in Effects(init) {
      EffectsAreEffects(init, op);
      var i :| 0 <= i < |init| && init[i].effect == Some(op);
      assert actions[i].effect == Some(op);
    } else {
      assert actions[|actions| - 1].effect == Some(op);
    }
  }

  lemma {:induction false} EffectsConcat(first: seq<Action>, second: seq<Action>)
    ensures Effects(first + second) == Effects(first) + Effects(second)
  {
    if second == [] {
      assert first + second == first;
    } else {
      EffectsConcat(first, second[..|second| - 1]);
      assert (first + second)[..|first + second| - 1] == first + second[..|second| - 1];
    }
  }

  /** The file an installation writes at a path. */
  function NewFile(fs: Files, opts: Options, p: Path): File {
    match p
    case Binary => BinaryFile(opts)
    case Config => ConfigFile(opts)
    case Unit => UnitFile(opts)
    case Marker => MarkerFile(fs, opts)
  }

  /** Either a write of the installation itself, or a step of its rollback. */
  predicate InstallOp(fs: Files, opts: Options, op: Op) {
    match op
    case Write(p, f) => (f == NewFile(fs, opts, p) && (p == Config ==> Config !in fs))
                        || (p in fs && f == Recaptured(fs[p]))
    case Remove(p) => p !in fs
  }

  lemma InstallTraceOps(fs: Files, opts: Options, faults: Faults)
    ensures forall op :: op in InstallTrace(fs, opts, faults) ==> InstallOp(fs, opts, op)
  {
    var acts, back := InstallActions(fs, opts), RestoreActions(fs);
    forall op | op in Performed(acts, faults) ensures InstallOp(fs, opts, op) {
      EffectsAreEffects(acts[..FirstFailure(acts, faults)], op);
      assert exists i :: 0 <= i < |acts| && acts[i].effect == Some(op);
    }
    forall op | op in Performed(back, faults) ensures InstallOp(fs, opts, op) {
      EffectsAreEffects(back[..FirstFailure(back, faults)], op);
      assert exists i :: 0 <= i < |back| && back[i].effect == Some(op);
    }
  }

  // ---------------------------------------------------------------- every intermediate point

  /** What a path holds during an installation: its old file, possibly written back, or the new one.
      A configuration that existed is never replaced, and no file that existed is ever missing. */
  predicate OldOrNew(fs: Files, opts: Options, now: Files, p: Path) {
    && (p in fs ==>
          && p in now
          && (now[p] == fs[p] || now[p] == Recaptured(fs[p]) || (p != Config && now[p] == NewFile(fs, opts, p))))
    && (p !in fs ==> (p in now ==> now[p] == NewFile(fs, opts, p)))
  }

  lemma {:induction false} OldOrNewAlong(fs: Files, opts: Options, ops: seq<Op>)
    requires forall op :: op in ops ==> InstallOp(fs, opts, op)
    ensures forall p: Path :: OldOrNew(fs, opts, ApplyAll(fs, ops), p)
  {
    if ops != [] {
      var init := ops[..|ops| - 1];
      OldOrNewAlong(fs, opts, init);
      var was, now, op := ApplyAll(fs, init), ApplyAll(fs, ops), ops[|ops| - 1];
      forall p: Path ensures OldOrNew(fs, opts, now, p) {
        assert OldOrNew(fs, opts, was, p) && InstallOp(fs, opts, op);
      }
    }
  }

  /** Stop an installation anywhere, rollback included: every path holds its old file or the new one,
      and an existing configuration keeps its contents and permission bits. */
  lemma EveryPointIsOldOrNew(fs: Files, opts: Options, faults: Faults, k: nat)
    requires k <= |InstallTrace(fs, opts, faults)|
    ensures var now := ApplyAll(fs, InstallTrace(fs, opts, faults)[..k]);
            && (forall p: Path :: OldOrNew(fs, opts, now, p))
            && (Config in fs ==>
                  Config in now && now[Config].data == fs[Config].data && now[Config].perm == fs[Config].perm)
  {
    InstallTraceOps(fs, opts, faults);
    OldOrNewAlong(fs, opts, InstallTrace(fs, opts, faults)[..k]);
    assert OldOrNew(fs, opts, ApplyAll(fs, InstallTrace(fs, opts, faults)[..k]), Config);
  }

  // ---------------------------------------------------------------- failure

  /** The files as a completed rollback leaves them. */
  function AllRecaptured(fs: Files): Files { map p | p in fs :: Recaptured(fs[p]) }

  lemma ApplySnoc(fs: Files, ops: seq<Op>, op: Op)
    ensures ApplyAll(fs, ops + [op]) == Apply(ApplyAll(fs, ops), op)
  {
    assert (ops + [op])[..|ops|] == ops;
  }

  lemma ThreeOps(fs: Files, a: Op, b: Op, c: Op)
    ensures ApplyAll(fs, [a, b, c]) == Apply(Apply(Apply(fs, a), b), c)
  {
    ApplySnoc(fs, [], a);
    ApplySnoc(fs, [a], b);
    ApplySnoc(fs, [a, b], c);
    assert [] + [a] == [a] && [a] + [b] == [a, b] && [a, b] + [c] == [a, b, c];
  }

  lemma FourOps(fs: Files, a: Op, b: Op, c: Op, d: Op)
    ensures ApplyAll(fs, [a, b, c, d]) == Apply(Apply(Apply(Apply(fs, a), b), c), d)
  {
    ThreeOps(fs, a, b, c);
    ApplySnoc(fs, [a, b, c], d);
    assert [a, b, c] + [d] == [a, b, c, d];
  }

  function EffectOf(a: Action): seq<Op> { if a.effect.Some? then [a.effect.value] else [] }

  lemma TwoEffects(a: Action, b: Action)
    ensures Effects([a]) == EffectOf(a)
    ensures Effects([a, b]) == EffectOf(a) + EffectOf(b)
  {
    assert [a][..0] == [] && [b][..0] == [];
    EffectsConcat([a], [b]);
    assert [a] + [b] == [a, b];
  }

  lemma FourEffects(a: Action, b: Action, c: Action, d: Action)
    ensures Effects([a, b, c, d]) == EffectOf(a) + EffectOf(b) + EffectOf(c) + EffectOf(d)
  {
    TwoEffects(a, b);
    TwoEffects(c, d);
    EffectsConcat([a, b], [c, d]);
    assert [a, b] + [c, d] == [a, b, c, d];
  }

  lemma RestoreIsComplete(was: Files, now: Files)
    ensures ApplyAll(now, Effects(RestoreActions(was))) == AllRecaptured(was)
  {
    var a, b := RestoreAction(was, Binary), RestoreAction(was, Config);
    var c, d := RestoreAction(was, Unit), RestoreAction(was, Marker);
    FourEffects(a, b, c, d);
    FourOps(now, a.effect.value, b.effect.value, c.effect.value, d.effect.value);
    assert Effects(RestoreActions(was)) == [a.effect.value, b.effect.value, c.effect.value, d.effect.value];
    var end := ApplyAll(now, Effects(RestoreActions(was)));
    forall p: Path ensures (p in end <==> p in was) && (p in was ==> end[p] == Recaptured(was[p]))
    {
      match p case Binary => case Config => case Unit => case Marker =>
    }
  }

  /** An installation that returns an error without a failed rollback leaves existence, contents and
      permission bits of all four files as they were; it leaves the files themselves unchanged exactly
      when nothing was written back or no old file carried a special mode bit. */
  lemma InstallIsAllOrNothing(fs: Files, opts: Options, faults: Faults)
    requires InstallOutcome(fs, opts, faults).Refused? || InstallOutcome(fs, opts, faults).RolledBack?
    ensures var now := ApplyAll(fs, InstallTrace(fs, opts, faults));
            && (forall p: Path :: p in now <==> p in fs)
            && (forall p :: p in fs ==> now[p].data == fs[p].data && now[p].perm == fs[p].perm)
            && (now == fs <==> InstallOutcome(fs, opts, faults).Refused? || forall p :: p in fs ==> !fs[p].special)
  {
    if InstallOutcome(fs, opts, faults).RolledBack? {
      var done, back := Performed(InstallActions(fs, opts), faults), RestoreActions(fs);
      ApplyAllConcat(fs, done, Performed(back, faults));
      assert back[..4] == back;
      RestoreIsComplete(fs, ApplyAll(fs, done));
      var now := AllRecaptured(fs);
      assert ApplyAll(fs, InstallTrace(fs, opts, faults)) == now;
      assert forall p :: p in fs && fs[p].special ==> now[p] != fs[p];
      assert (forall p :: p in fs ==> !fs[p].special) ==> forall p :: p in fs ==> now[p] == fs[p];
    }
  }

  // ---------------------------------------------------------------- success

  function InstallWrites(fs: Files, opts: Options): seq<Op> {
    [Write(Binary, BinaryFile(opts))]
    + (if Config !in fs then [Write(Config, ConfigFile(opts))] else [])
    + [Write(Unit, UnitFile(opts)), Write(Marker, MarkerFile(fs, opts))]
  }

  lemma OnlyLast(a: Action, b: Action, c: Action, d: Action)
    requires a.effect == b.effect == c.effect == None && d.effect.Some?
    ensures Effects([a, b, c, d]) == [d.effect.value]
  {
    FourEffects(a, b, c, d);
  }

  lemma FirstAndThird(a: Action, b: Action, c: Action, d: Action)
    requires b.effect == d.effect == None && a.effect.Some? && c.effect.Some?
    ensures Effects([a, b, c, d]) == [a.effect.value, c.effect.value]
  {
    FourEffects(a, b, c, d);
  }

  lemma InstallWritesInOrder(fs: Files, opts: Options)
    ensures Effects(InstallActions(fs, opts)) == InstallWrites(fs, opts)
  {
    var binary, config := WriteAction(Binary, BinaryFile(opts)), WriteAction(Config, ConfigFile(opts));
    var unit, marker := WriteAction(Unit, UnitFile(opts)), WriteAction(Marker, MarkerFile(fs, opts));
    var a, b, c := Action(EnsureIdentity, None), Action(MakeBinaryDir, None), Action(MakeConfigDir, None);
    var e, f := Action(EncodeMarker, None), Action(ReloadSystemd, None);
    OnlyLast(a, b, c, binary);
    TwoEffects(config, config);
    FirstAndThird(unit, e, marker, f);
    TwoEffects(Action(EnableService, None), Action(WaitReady, None));
    FourParts([a, b, c, binary], if Config !in fs then [config] else [], [unit, e, marker, f],
              if opts.startService then [Action(EnableService, None), Action(WaitReady, None)] else []);
  }

  lemma FourParts(first: seq<Action>, second: seq<Action>, third: seq<Action>, fourth: seq<Action>)
    ensures Effects(first + second + third + fourth)
            == Effects(first) + Effects(second) + Effects(third) + Effects(fourth)
  {
    EffectsConcat(first, second);
    EffectsConcat(first + second, third);
    EffectsConcat(first + second + third, fourth);
  }

  /** The files after the writes of a successful installation. */
  function Installed(fs: Files, opts: Options): Files {
    map[Config := if Config in fs then fs[Config] else ConfigFile(opts),
        Binary := BinaryFile(opts), Unit := UnitFile(opts), Marker := MarkerFile(fs, opts)]
  }

  lemma WritesComplete(fs: Files, opts: Options)
    ensures ApplyAll(fs, InstallWrites(fs, opts)) == Installed(fs, opts)
  {
    var binary, config := Write(Binary, BinaryFile(opts)), Write(Config, ConfigFile(opts));
    var unit, marker := Write(Unit, UnitFile(opts)), Write(Marker, MarkerFile(fs, opts));
    if Config in fs {
      assert InstallWrites(fs, opts) == [binary, unit, marker];
      ThreeOps(fs, binary, unit, marker);
    } else {
      assert InstallWrites(fs, opts) == [binary, config, unit, marker];
      FourOps(fs, binary, config, unit, marker);
    }
    var now, expected := ApplyAll(fs, InstallWrites(fs, opts)), Installed(fs, opts);
    forall p: Path ensures p in now && p in expected && now[p] == expected[p] {
      match p case Binary => case Config => case Unit => case Marker =>
    }
  }

  /** A successful installation: the complete state it leaves. The configuration is created only when
      there was none, and claimed exactly when the installer created it. */
  lemma SuccessfulInstall(fs: Files, opts: Options, faults: Faults)
    requires InstallOutcome(fs, opts, faults) == Success
    ensures InstallTrace(fs, opts, faults) == InstallWrites(fs, opts)
    ensures ApplyAll(fs, InstallTrace(fs, opts, faults)) == Installed(fs, opts)
    ensures OwnershipOf(ApplyAll(fs, InstallTrace(fs, opts, faults))) == Managed
  {
    CompletedInstallTrace(fs, opts, faults);
    WritesComplete(fs, opts);
  }

  lemma CompletedInstallTrace(fs: Files, opts: Options, faults: Faults)
    requires InstallOutcome(fs, opts, faults) == Success
    ensures InstallTrace(fs, opts, faults) == InstallWrites(fs, opts)
  {
    var acts := InstallActions(fs, opts);
    assert FirstFailure(acts, faults) == |acts|;
    assert acts[..|acts|] == acts;
    InstallWritesInOrder(fs, opts);
  }
}
