/** What interrupted and failing installations leave behind, and whom they refuse. */
module InterruptionProofs {
  import opened Wrappers
  import opened InstallSpec
  import opened InstallProofs

  // ---------------------------------------------------------------- the operations of a trace

  lemma EffectsPrefix(actions: seq<Action>, m: nat)
    requires m <= |actions|
    ensures Effects(actions[..m]) <= Effects(actions)
  {
    EffectsConcat(actions[..m], actions[m..]);
    assert actions == actions[..m] + actions[m..];
  }

  /** How many files one installation writes before its first failing step. */
  function Written(fs: Files, opts: Options, faults: Faults): nat {
    |Performed(InstallActions(fs, opts), faults)|
  }

  lemma WritesPerformed(fs: Files, opts: Options, faults: Faults)
    ensures var n := Written(fs, opts, faults);
            && n <= |InstallWrites(fs, opts)|
            && Performed(InstallActions(fs, opts), faults) == InstallWrites(fs, opts)[..n]
  {
    var actions := InstallActions(fs, opts);
    EffectsPrefix(actions, FirstFailure(actions, faults));
    InstallWritesInOrder(fs, opts);
  }

  function RestoreOp(was: Files, p: Path): Op {
    if p in was then Write(p, Recaptured(was[p])) else Remove(p)
  }

  function RestoreOps(was: Files): seq<Op> {
    [RestoreOp(was, Binary), RestoreOp(was, Config), RestoreOp(was, Unit), RestoreOp(was, Marker)]
  }

  lemma RestoresPerformed(was: Files, faults: Faults)
    ensures Performed(RestoreActions(was), faults) == RestoreOps(was)[..FirstFailure(RestoreActions(was), faults)]
  {
    var back := RestoreActions(was);
    var m := FirstFailure(back, faults);
    FourEffects(back[0], back[1], back[2], back[3]);
    assert back == [back[0], back[1], back[2], back[3]];
    assert Effects(back) == RestoreOps(was);
    EffectsPrefix(back, m);
    forall i | 0 <= i < m ensures back[..m][i].effect.Some? {}
    EffectsOfSome(back[..m]);
  }

  lemma {:induction false} EffectsOfSome(actions: seq<Action>)
    requires forall i :: 0 <= i < |actions| ==> actions[i].effect.Some?
    ensures |Effects(actions)| == |actions|
  {
    if actions != [] {
      EffectsOfSome(actions[..|actions| - 1]);
    }
  }

  /** An installation stopped after `k` operations: some writes, and after a failure some restores. */
  lemma StoppedTrace(fs: Files, opts: Options, faults: Faults, k: nat)
    requires Precheck(fs, faults) == None && k <= |InstallTrace(fs, opts, faults)|
    ensures var n, writes := Written(fs, opts, faults), InstallWrites(fs, opts);
            && n <= |writes|
            && (k <= n ==> InstallTrace(fs, opts, faults)[..k] == writes[..k])
            && (k > n ==> k - n <= 4 && InstallTrace(fs, opts, faults)[..k] == writes[..n] + RestoreOps(fs)[..k - n])
  {
    WritesPerformed(fs, opts, faults);
    RestoresPerformed(fs, faults);
  }

  // ---------------------------------------------------------------- which files are present

  lemma {:induction false} WrittenPaths(fs: Files, ops: seq<Op>, p: Path)
    requires forall op :: op in ops ==> op.Write?
    ensures p in ApplyAll(fs, ops) <==> p in fs || exists i :: 0 <= i < |ops| && ops[i].path == p
  {
    if ops != [] {
      var init := ops[..|ops| - 1];
      assert ops[|ops| - 1] in ops;
      assert forall i :: 0 <= i < |init| ==> init[i] == ops[i];
      WrittenPaths(fs, init, p);
    }
  }

  lemma WritesPresent(fs: Files, opts: Options, j: nat)
    requires j <= |InstallWrites(fs, opts)|
    ensures var now, full := ApplyAll(fs, InstallWrites(fs, opts)[..j]), |InstallWrites(fs, opts)|;
            && (Binary in now <==> Binary in fs || j > 0)
            && (Unit in now <==> Unit in fs || j >= full - 1)
            && (Marker in now <==> Marker in fs || j == full)
  {
    var writes := InstallWrites(fs, opts);
    var full := |writes|;
    WrittenPaths(fs, writes[..j], Binary);
    WrittenPaths(fs, writes[..j], Unit);
    WrittenPaths(fs, writes[..j], Marker);
    assert writes[0].path == Binary && writes[full - 2].path == Unit && writes[full - 1].path == Marker;
    assert forall i :: 0 < i < full - 2 ==> writes[i].path == Config;
    assert j > 0 ==> writes[..j][0].path == Binary;
    assert j >= full - 1 ==> writes[..j][full - 2].path == Unit;
    assert j == full ==> writes[..j][full - 1].path == Marker;
  }

  /** The place of a path in the order of restores. */
  function Turn(p: Path): nat {
    match p case Binary => 0 case Config => 1 case Unit => 2 case Marker => 3
  }

  lemma OneRestore(was: Files, now: Files, i: nat, p: Path)
    requires i < 4
    ensures p in Apply(now, RestoreOps(was)[i]) <==> if Turn(p) == i then p in was else p in now
  {
  }

  lemma {:induction false} RestoresPresent(was: Files, now: Files, m: nat, p: Path)
    requires m <= 4
    ensures p in ApplyAll(now, RestoreOps(was)[..m]) <==> if Turn(p) < m then p in was else p in now
  {
    var ops := RestoreOps(was);
    if m > 0 {
      RestoresPresent(was, now, m - 1, p);
      OneRestore(was, ApplyAll(now, ops[..m - 1]), m - 1, p);
      assert ops[..m] == ops[..m - 1] + [ops[m - 1]];
      ApplySnoc(now, ops[..m - 1], ops[m - 1]);
    }
  }

  lemma RolledBackPresent(fs: Files, opts: Options, n: nat, m: nat)
    requires n <= |InstallWrites(fs, opts)| && m <= 4
    ensures var full := |InstallWrites(fs, opts)|;
            var now := ApplyAll(fs, InstallWrites(fs, opts)[..n] + RestoreOps(fs)[..m]);
            && (Binary in now <==> Binary in fs || (n > 0 && m < 1))
            && (Unit in now <==> Unit in fs || (n >= full - 1 && m < 3))
            && (Marker in now <==> Marker in fs || (n == full && m < 4))
  {
    var mid := ApplyAll(fs, InstallWrites(fs, opts)[..n]);
    WritesPresent(fs, opts, n);
    ApplyAllConcat(fs, InstallWrites(fs, opts)[..n], RestoreOps(fs)[..m]);
    RestoresPresent(fs, mid, m, Binary);
    RestoresPresent(fs, mid, m, Unit);
    RestoresPresent(fs, mid, m, Marker);
  }

  // ---------------------------------------------------------------- ownership along the way

  /** An update of a managed instance is Managed at every intermediate point, whatever fails. */
  lemma InterruptedUpdateStaysManaged(fs: Files, opts: Options, faults: Faults, k: nat)
    requires OwnershipOf(fs) == Managed && k <= |InstallTrace(fs, opts, faults)|
    ensures OwnershipOf(ApplyAll(fs, InstallTrace(fs, opts, faults)[..k])) == Managed
  {
    EveryPointIsOldOrNew(fs, opts, faults, k);
    assert OldOrNew(fs, opts, ApplyAll(fs, InstallTrace(fs, opts, faults)[..k]), Marker);
  }

  lemma LooksWhileWriting(fs: Files, opts: Options, k: nat)
    requires Marker !in fs && k <= |InstallWrites(fs, opts)|
    ensures OwnershipOf(ApplyAll(fs, InstallWrites(fs, opts)[..k])) == External
            <==> k < |InstallWrites(fs, opts)| && (k > 0 || OwnershipOf(fs) == External)
  {
    WritesPresent(fs, opts, k);
  }

  lemma LooksWhileRestoring(fs: Files, opts: Options, n: nat, m: nat)
    requires Marker !in fs && n <= |InstallWrites(fs, opts)| && 0 < m <= 4
    ensures var full := |InstallWrites(fs, opts)|;
            OwnershipOf(ApplyAll(fs, InstallWrites(fs, opts)[..n] + RestoreOps(fs)[..m])) == External
            <==> if OwnershipOf(fs) == External then n < full || m == 4 else n == full - 1 && m < 3
  {
    RolledBackPresent(fs, opts, n, m);
  }

  lemma LooksAfter(fs: Files, opts: Options, ops: seq<Op>, n: nat, k: nat)
    requires Marker !in fs && n <= |InstallWrites(fs, opts)|
    requires k <= n ==> ops == InstallWrites(fs, opts)[..k]
    requires k > n ==> k - n <= 4 && ops == InstallWrites(fs, opts)[..n] + RestoreOps(fs)[..k - n]
    ensures var full := |InstallWrites(fs, opts)|;
            OwnershipOf(ApplyAll(fs, ops)) == External
            <==> if k <= n then k < full && (k > 0 || OwnershipOf(fs) == External)
                 else if OwnershipOf(fs) == External then n < full || k - n == 4
                 else n == full - 1 && k - n < 3
  {
    if k <= n {
      LooksWhileWriting(fs, opts, k);
    } else {
      LooksWhileRestoring(fs, opts, n, k - n);
    }
  }

  /** A first installation is not. Whatever fails and wherever it is stopped, rollback included, its files look
      externally owned exactly between the first write and the marker's, and, when it was the marker's write
      that failed, until the rollback has removed the unit. Such files no later operation will touch. Over
      external files, overwritten because their stats failed, only the marker hides that. */
  lemma InterruptedFirstInstallLooksExternal(fs: Files, opts: Options, faults: Faults, k: nat, again: Options,
                                             purge: bool)
    requires Marker !in fs && Precheck(fs, faults) == None
    requires k <= |InstallTrace(fs, opts, faults)|
    ensures var now := ApplyAll(fs, InstallTrace(fs, opts, faults)[..k]);
            var n, full := Written(fs, opts, faults), |InstallWrites(fs, opts)|;
            && (OwnershipOf(fs) == Disabled ==>
                  (OwnershipOf(now) == External <==> if k <= n then 0 < k < full else n == full - 1 && k - n < 3))
            && (OwnershipOf(fs) == External ==>
                  (OwnershipOf(now) == External <==> if k <= n then k < full else n < full || k - n == 4))
            && (OwnershipOf(now) == External ==>
                  InstallTrace(now, again, {}) == [] && UninstallTrace(now, purge, {}) == [])
  {
    var n := Written(fs, opts, faults);
    StoppedTrace(fs, opts, faults, k);
    LooksAfter(fs, opts, InstallTrace(fs, opts, faults)[..k], n, k);
    ExternalStaysRefused(ApplyAll(fs, InstallTrace(fs, opts, faults)[..k]), again, purge);
  }

  lemma ExternalStaysRefused(fs: Files, opts: Options, purge: bool)
    ensures OwnershipOf(fs) == External ==>
              && InstallOutcome(fs, opts, {}) == Refused(ExternallyOwned)
              && InstallTrace(fs, opts, {}) == [] && UninstallTrace(fs, purge, {}) == []
  {
  }

  /** How a failed first installation ends: it looks external exactly when its own rollback failed while
      one of its files was still there and its marker was not. */
  lemma FailedFirstInstallEndsExternalExactly(fs: Files, opts: Options, faults: Faults)
    requires OwnershipOf(fs) == Disabled && Precheck(fs, faults) == None
    requires InstallOutcome(fs, opts, faults) != Success
    ensures var n, full := Written(fs, opts, faults), |InstallWrites(fs, opts)|;
            var outcome := InstallOutcome(fs, opts, faults);
            OwnershipOf(ApplyAll(fs, InstallTrace(fs, opts, faults))) == External
            <==> outcome.RollbackFailed?
                 && ((0 < n < full && outcome.restore == Restore(Binary))
                     || (n == full - 1 && (outcome.restore == Restore(Config) || outcome.restore == Restore(Unit))))
  {
    var trace := InstallTrace(fs, opts, faults);
    RestoresPerformed(fs, faults);
    assert trace[..|trace|] == trace;
    InterruptedFirstInstallLooksExternal(fs, opts, faults, |trace|, opts, true);
  }

  lemma TwoWritten(fs: Files, opts: Options, faults: Faults)
    requires Config !in fs && FirstFailure(InstallActions(fs, opts), faults) == 5
    ensures Written(fs, opts, faults) == 2
  {
    var all := InstallActions(fs, opts);
    var a, b, c, d, e := all[0], all[1], all[2], all[3], all[4];
    assert all[..5] == [a, b, c, d] + [e];
    EffectsConcat([a, b, c, d], [e]);
    OnlyLast(a, b, c, d);
    TwoEffects(e, e);
  }

  /** Without any interruption: on an empty machine the unit cannot be written and the binary not removed
      again, and every later installation is refused. */
  lemma FailedRollbackLooksExternal(opts: Options, again: Options)
    ensures var faults := {WriteFile(Unit), Restore(Binary)};
            var now := ApplyAll(map[], InstallTrace(map[], opts, faults));
            && InstallOutcome(map[], opts, faults) == RollbackFailed(WriteFile(Unit), Restore(Binary))
            && OwnershipOf(now) == External
            && InstallOutcome(now, again, {}) == Refused(ExternallyOwned)
  {
    var faults: Faults := {WriteFile(Unit), Restore(Binary)};
    NoCaptureError(MANAGED_PATHS, faults);
    assert Precheck(map[], faults) == None;
    var actions := InstallActions(map[], opts);
    assert actions[5].step == WriteFile(Unit) && forall i :: 0 <= i < 5 ==> actions[i].step !in faults;
    assert FirstFailure(actions, faults) == 5;
    assert RestoreActions(map[])[0].step == Restore(Binary);
    assert FirstFailure(RestoreActions(map[]), faults) == 0;
    TwoWritten(map[], opts, faults);
    FailedFirstInstallEndsExternalExactly(map[], opts, faults);
    ExternalStaysRefused(ApplyAll(map[], InstallTrace(map[], opts, faults)), again, true);
  }

  // ---------------------------------------------------------------- running an update again

  predicate KeepsConfig(fs: Files, now: Files) {
    Config in fs ==> Config in now && now[Config] == fs[Config]
  }

  lemma {:induction false} Untouched(fs: Files, ops: seq<Op>, p: Path)
    requires forall op :: op in ops ==> op.path != p
    ensures p in fs ==> p in ApplyAll(fs, ops) && ApplyAll(fs, ops)[p] == fs[p]
  {
    if ops != [] {
      assert ops[|ops| - 1] in ops;
      Untouched(fs, ops[..|ops| - 1], p);
    }
  }

  /** The writes of an installation leave an existing configuration alone; a rollback writes it back second. */
  lemma ConfigAfter(fs: Files, opts: Options, n: nat, m: nat)
    requires Config in fs && n <= |InstallWrites(fs, opts)| && m <= 4
    ensures var now := ApplyAll(fs, InstallWrites(fs, opts)[..n] + RestoreOps(fs)[..m]);
            Config in now && now[Config] == if m < 2 then fs[Config] else Recaptured(fs[Config])
  {
    var writes, back := InstallWrites(fs, opts)[..n], RestoreOps(fs);
    var mid := ApplyAll(fs, writes);
    Untouched(fs, writes, Config);
    ApplyAllConcat(fs, writes, back[..m]);
    if m < 2 {
      Untouched(mid, back[..m], Config);
    } else {
      ApplySnoc(mid, back[..1], back[1]);
      assert back[..2] == back[..1] + [back[1]];
      ApplyAllConcat(mid, back[..2], back[2..m]);
      assert back[..m] == back[..2] + back[2..m];
      Untouched(ApplyAll(mid, back[..2]), back[2..m], Config);
    }
  }

  /** Where a stopped installation has stripped a configuration of its special mode bits: from the second
      restore on. */
  lemma ConfigIsStrippedExactly(fs: Files, opts: Options, faults: Faults, k: nat)
    requires Config in fs && Precheck(fs, faults) == None && k <= |InstallTrace(fs, opts, faults)|
    ensures KeepsConfig(fs, ApplyAll(fs, InstallTrace(fs, opts, faults)[..k]))
            <==> !fs[Config].special || k < Written(fs, opts, faults) + 2
  {
    var n := Written(fs, opts, faults);
    StoppedTrace(fs, opts, faults, k);
    if k <= n {
      ConfigAfter(fs, opts, k, 0);
      assert InstallWrites(fs, opts)[..k] + RestoreOps(fs)[..0] == InstallWrites(fs, opts)[..k];
    } else {
      ConfigAfter(fs, opts, n, k - n);
    }
  }

  /** Stop an update anywhere, by a failing step or a crash, rollback included, and run it again: the files end
      as after one uninterrupted update, unless the configuration carries a special mode bit and the stopped
      update had come to the second file of its rollback. */
  lemma UpdateIsResumable(fs: Files, opts: Options, faults: Faults, k: nat)
    requires OwnershipOf(fs) == Managed && k <= |InstallTrace(fs, opts, faults)|
    ensures var stopped := ApplyAll(fs, InstallTrace(fs, opts, faults)[..k]);
            ApplyAll(stopped, InstallTrace(stopped, opts, {})) == ApplyAll(fs, InstallTrace(fs, opts, {}))
            <==> !(Precheck(fs, faults) == None && Config in fs && fs[Config].special
                   && k >= Written(fs, opts, faults) + 2)
  {
    var trace := InstallTrace(fs, opts, faults);
    var stopped := ApplyAll(fs, trace[..k]);
    if Precheck(fs, faults).Some? {
      assert trace == [] && trace[..k] == [];
      assert stopped == fs;
    } else {
      PointAt(fs, opts, faults, k, Config);
      PointAt(fs, opts, faults, k, Marker);
      ResumedUpdate(fs, stopped, opts);
      if Config in fs {
        ConfigIsStrippedExactly(fs, opts, faults, k);
      }
    }
  }

  lemma ResumedUpdate(fs: Files, stopped: Files, opts: Options)
    requires Marker in fs && fs[Marker].data.Json?
    requires OldOrNew(fs, opts, stopped, Config) && OldOrNew(fs, opts, stopped, Marker)
    ensures ApplyAll(stopped, InstallTrace(stopped, opts, {})) == ApplyAll(fs, InstallTrace(fs, opts, {}))
            <==> KeepsConfig(fs, stopped)
  {
    CleanInstall(fs, opts);
    CleanInstall(stopped, opts);
    SameInstalled(fs, stopped, opts);
  }

  lemma PointAt(fs: Files, opts: Options, faults: Faults, k: nat, p: Path)
    requires k <= |InstallTrace(fs, opts, faults)|
    ensures OldOrNew(fs, opts, ApplyAll(fs, InstallTrace(fs, opts, faults)[..k]), p)
  {
    EveryPointIsOldOrNew(fs, opts, faults, k);
  }

  lemma SameInstalled(fs: Files, other: Files, opts: Options)
    requires ClaimsConfig(fs) == ClaimsConfig(other)
    requires Config in fs ==> Config in other
    requires Config !in fs && Config in other ==> other[Config] == ConfigFile(opts)
    ensures Installed(fs, opts) == Installed(other, opts) <==> KeepsConfig(fs, other)
  {
    assert Installed(fs, opts)[Config] == if Config in fs then fs[Config] else ConfigFile(opts);
    assert Installed(other, opts)[Config] == if Config in other then other[Config] else ConfigFile(opts);
  }

  /** An installation in which nothing fails, on files that are not external. */
  lemma CleanInstall(fs: Files, opts: Options)
    requires OwnershipOf(fs) != External && (Marker in fs ==> fs[Marker].data.Json?)
    ensures ApplyAll(fs, InstallTrace(fs, opts, {})) == Installed(fs, opts)
  {
    NoCaptureError(MANAGED_PATHS, {});
    assert Precheck(fs, {}) == None;
    SuccessfulInstall(fs, opts, {});
  }

  // ---------------------------------------------------------------- special mode bits

  /** The bits a rollback loses: whatever file carries one, an installation whose first step fails is rolled
      back without an error and does not give the files back as they were. */
  lemma RollbackLosesSpecialBits(fs: Files, opts: Options, p: Path)
    requires OwnershipOf(fs) != External && (Marker in fs ==> fs[Marker].data.Json?)
    requires p in fs && fs[p].special
    ensures InstallOutcome(fs, opts, {EnsureIdentity}) == RolledBack(EnsureIdentity)
    ensures ApplyAll(fs, InstallTrace(fs, opts, {EnsureIdentity})) != fs
  {
    var faults: Faults := {EnsureIdentity};
    NoCaptureError(MANAGED_PATHS, faults);
    assert Precheck(fs, faults) == None;
    assert FirstFailure(InstallActions(fs, opts), faults) == 0;
    var back := RestoreActions(fs);
    assert forall i :: 0 <= i < 4 ==> back[i].step !in faults;
    assert FirstFailure(back, faults) == 4;
    InstallIsAllOrNothing(fs, opts, faults);
  }

  // ---------------------------------------------------------------- external files

  /** Which stats fail during a call. */
  predicate StatsFail(faults: Faults, s: set<Path>) {
    forall p: Path :: StatFile(p) in faults <==> p in s
  }

  /** An installation leaves external files alone, whatever else fails, exactly when a stat of one of them
      succeeds: `fileExists` takes a failed stat for an absent file. */
  lemma ExternalIsKeptExactly(fs: Files, opts: Options, s: set<Path>)
    requires OwnershipOf(fs) == External
    ensures (forall faults | StatsFail(faults, s) :: ApplyAll(fs, InstallTrace(fs, opts, faults)) == fs)
            <==> exists p :: p in fs && (p == Binary || p == Unit) && p !in s
  {
    if exists p :: p in fs && (p == Binary || p == Unit) && p !in s {
      forall faults | StatsFail(faults, s) ensures ApplyAll(fs, InstallTrace(fs, opts, faults)) == fs {
        assert SeenOwnership(fs, faults) == External;
        assert InstallTrace(fs, opts, faults) == [];
      }
    } else {
      var faults: Faults := set p | p in s :: StatFile(p);
      assert StatsFail(faults, s);
      FailedStatsLetInstallOverwrite(fs, opts, faults);
    }
  }

  /** The other side: when nothing fails but stats, and those of every file present do, the installation goes
      through and overwrites the external files. */
  lemma FailedStatsLetInstallOverwrite(fs: Files, opts: Options, faults: Faults)
    requires OwnershipOf(fs) == External && SeenOwnership(fs, faults) != External
    requires forall step :: step in faults ==> step.StatFile?
    ensures InstallOutcome(fs, opts, faults) == Success
    ensures var now := ApplyAll(fs, InstallTrace(fs, opts, faults));
            && Binary in now && now[Binary] == BinaryFile(opts) && Unit in now && now[Unit] == UnitFile(opts)
            && Marker in now && Marker !in fs
  {
    NoCaptureError(MANAGED_PATHS, faults);
    assert Precheck(fs, faults) == None;
    var acts := InstallActions(fs, opts);
    assert forall i :: 0 <= i < |acts| ==> !acts[i].step.StatFile?;
    SuccessfulInstall(fs, opts, faults);
  }

  /** A stat that keeps failing is not enough: taking the snapshot stats the file again, and refuses. */
  lemma PersistentStatErrorIsRefused(fs: Files, opts: Options, faults: Faults)
    requires OwnershipOf(fs) == External
    requires forall p :: p in fs && StatFile(p) in faults ==> Capture(p) in faults
    ensures InstallOutcome(fs, opts, faults).Refused? && InstallTrace(fs, opts, faults) == []
  {
    if SeenOwnership(fs, faults) != External {
      CaptureErrorFound(MANAGED_PATHS, faults, if Binary in fs then 0 else 2);
    }
  }

  lemma {:induction false} CaptureErrorFound(paths: seq<Path>, faults: Faults, i: nat)
    requires i < |paths| && Capture(paths[i]) in faults
    ensures FirstCaptureError(paths, faults).Some?
  {
    if i > 0 {
      CaptureErrorFound(paths[1..], faults, i - 1);
    }
  }

  lemma {:induction false} NoCaptureError(paths: seq<Path>, faults: Faults)
    requires forall p: Path :: Capture(p) !in faults
    ensures FirstCaptureError(paths, faults) == None
  {
    if paths != [] {
      NoCaptureError(paths[1..], faults);
    }
  }
}
