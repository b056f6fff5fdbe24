/** When installer calls go through, refuse or roll back, told from the steps that fail. */
module InstallChecks {
  import opened Wrappers
  import opened InstallSpec
  import opened InstallProofs
  import opened InterruptionProofs
  import opened UninstallProofs

  // ---------------------------------------------------------------- the checks before anything is written

  /** The checks on the caller, the program to install and the services of the machine. */
  const MACHINE_CHECKS: set<Step> := {RootCheck, SourcePath, SourceStat, SourceRegular, SystemdProbe, OllamaProbe}

  /** What must hold before an installation writes anything. */
  ghost predicate Cleared(fs: Files, faults: Faults) {
    && faults !! MACHINE_CHECKS
    && (forall p: Path :: Capture(p) !in faults)
    && ((Marker in fs && StatFile(Marker) !in faults)
        || ((Binary in fs ==> StatFile(Binary) in faults) && (Unit in fs ==> StatFile(Unit) in faults)))
    && (Marker in fs ==> ReadMarker !in faults && fs[Marker].data.Json?)
  }

  lemma NotAMachineCheck(faults: Faults)
    ensures faults !! MACHINE_CHECKS
            <==> RootCheck !in faults && SourcePath !in faults && SourceStat !in faults && SourceRegular !in faults
                 && SystemdProbe !in faults && OllamaProbe !in faults
  {
    if RootCheck !in faults && SourcePath !in faults && SourceStat !in faults && SourceRegular !in faults
       && SystemdProbe !in faults && OllamaProbe !in faults {
      forall step | step in faults ensures step !in MACHINE_CHECKS {}
    } else {
      assert RootCheck in MACHINE_CHECKS && SourcePath in MACHINE_CHECKS && SourceStat in MACHINE_CHECKS;
      assert SourceRegular in MACHINE_CHECKS && SystemdProbe in MACHINE_CHECKS && OllamaProbe in MACHINE_CHECKS;
    }
  }

  lemma CapturesExactly(faults: Faults)
    ensures FirstCaptureError(MANAGED_PATHS, faults) == None <==> forall p: Path :: Capture(p) !in faults
  {
    if forall p: Path :: Capture(p) !in faults {
      NoCaptureError(MANAGED_PATHS, faults);
    } else {
      var p: Path :| Capture(p) in faults;
      CaptureErrorFound(MANAGED_PATHS, faults, Turn(p));
    }
  }

  lemma ClearedExactly(fs: Files, faults: Faults)
    ensures Precheck(fs, faults) == None <==> Cleared(fs, faults)
  {
    NotAMachineCheck(faults);
    CapturesExactly(faults);
  }

  /** An installation is refused, with nothing written, exactly when it is not cleared: in particular by every
      failing check of the machine. */
  lemma InstallIsRefusedExactly(fs: Files, opts: Options, faults: Faults)
    ensures InstallOutcome(fs, opts, faults).Refused? <==> !Cleared(fs, faults)
    ensures !Cleared(fs, faults) ==> InstallTrace(fs, opts, faults) == []
    ensures InstallTrace(fs, opts, faults) != [] || InstallOutcome(fs, opts, faults) == Success
            ==> faults !! MACHINE_CHECKS
  {
    ClearedExactly(fs, faults);
  }

  /** A single failing check is the reason given. */
  lemma SingleFailingCheck(fs: Files, opts: Options, step: Step)
    requires step in MACHINE_CHECKS || step.Capture? || (step == ReadMarker && Marker in fs)
    requires OwnershipOf(fs) != External
    ensures InstallOutcome(fs, opts, {step}) == Refused(StepFailed(step))
    ensures InstallTrace(fs, opts, {step}) == []
  {
    if step.Capture? {
      OneCaptureError(MANAGED_PATHS, step.path, Turn(step.path));
    } else {
      NoCaptureError(MANAGED_PATHS, {step});
    }
  }

  lemma {:induction false} OneCaptureError(paths: seq<Path>, p: Path, i: nat)
    requires i < |paths| && paths[i] == p
    ensures FirstCaptureError(paths, {Capture(p)}) == Some(Capture(p))
  {
    if paths[0] != p {
      OneCaptureError(paths[1..], p, i - 1);
    }
  }

  /** The order in which the machine is checked. */
  const CHECK_ORDER: seq<Step> := [RootCheck, SourcePath, SourceStat, SourceRegular, SystemdProbe, OllamaProbe]

  /** Of several failing checks the first is reported. */
  lemma FirstFailingCheck(fs: Files, opts: Options, faults: Faults, i: nat)
    requires i < 6 && CHECK_ORDER[i] in faults && forall j :: 0 <= j < i ==> CHECK_ORDER[j] !in faults
    ensures InstallOutcome(fs, opts, faults) == Refused(StepFailed(CHECK_ORDER[i]))
  {
    assert i > 0 ==> CHECK_ORDER[0] == RootCheck && RootCheck !in faults;
    assert i > 1 ==> CHECK_ORDER[1] == SourcePath && SourcePath !in faults;
    assert i > 2 ==> CHECK_ORDER[2] == SourceStat && SourceStat !in faults;
    assert i > 3 ==> CHECK_ORDER[3] == SourceRegular && SourceRegular !in faults;
    assert i > 4 ==> CHECK_ORDER[4] == SystemdProbe && SystemdProbe !in faults;
  }

  /** Where nothing fails, what is there already refuses: external files, or a marker that cannot be understood. */
  lemma RefusedByFiles(fs: Files, opts: Options, purge: bool)
    ensures OwnershipOf(fs) == External ==>
              && InstallOutcome(fs, opts, {}) == Refused(ExternallyOwned)
              && UninstallOutcome(fs, purge, {}) == Refused(ExternallyOwned)
    ensures Marker in fs && !fs[Marker].data.Json? ==>
              && InstallOutcome(fs, opts, {}) == Refused(MarkerUnreadable)
              && UninstallOutcome(fs, purge, {}) == Refused(MarkerUnreadable)
    ensures OwnershipOf(fs) == Disabled ==> UninstallOutcome(fs, purge, {}) == Success
  {
    NoCaptureError(MANAGED_PATHS, {});
  }

  // ---------------------------------------------------------------- the steps of an installation

  /** The steps whose failure rolls an installation back. */
  ghost predicate IsInstallStep(fs: Files, opts: Options, step: Step) {
    || step in {EnsureIdentity, MakeBinaryDir, MakeConfigDir, EncodeMarker, ReloadSystemd}
    || step in {WriteFile(Binary), WriteFile(Unit), WriteFile(Marker)}
    || (step == WriteFile(Config) && Config !in fs)
    || (step in {EnableService, WaitReady} && opts.startService)
  }

  lemma StepsOfInstall(fs: Files, opts: Options, step: Step)
    ensures (exists i :: 0 <= i < |InstallActions(fs, opts)| && InstallActions(fs, opts)[i].step == step)
            <==> IsInstallStep(fs, opts, step)
  {
    var acts := InstallActions(fs, opts);
    var c := if Config in fs then 0 else 1;
    assert acts[0].step == EnsureIdentity && acts[1].step == MakeBinaryDir && acts[2].step == MakeConfigDir;
    assert acts[3].step == WriteFile(Binary) && (Config !in fs ==> acts[4].step == WriteFile(Config));
    assert acts[4 + c].step == WriteFile(Unit) && acts[5 + c].step == EncodeMarker;
    assert acts[6 + c].step == WriteFile(Marker) && acts[7 + c].step == ReloadSystemd;
    assert opts.startService ==> acts[8 + c].step == EnableService && acts[9 + c].step == WaitReady;
    assert |acts| == 8 + c + if opts.startService then 2 else 0;
  }

  /** An installation succeeds exactly when it is cleared and none of its steps fails; with a failing step and no
      failing restore it is rolled back because of such a step. */
  lemma InstallSucceedsExactly(fs: Files, opts: Options, faults: Faults)
    ensures InstallOutcome(fs, opts, faults) == Success
            <==> Cleared(fs, faults) && forall step :: step in faults ==> !IsInstallStep(fs, opts, step)
    ensures InstallOutcome(fs, opts, faults).RolledBack? ==>
              var step := InstallOutcome(fs, opts, faults).cause; step in faults && IsInstallStep(fs, opts, step)
    ensures Cleared(fs, faults) && (exists step :: step in faults && IsInstallStep(fs, opts, step))
            && (forall p: Path :: Restore(p) !in faults)
            ==> InstallOutcome(fs, opts, faults).RolledBack?
  {
    ClearedExactly(fs, faults);
    forall step ensures (exists i :: 0 <= i < |InstallActions(fs, opts)| && InstallActions(fs, opts)[i].step == step)
                        <==> IsInstallStep(fs, opts, step) {
      StepsOfInstall(fs, opts, step);
    }
    FailsExactly(InstallActions(fs, opts), faults);
    FailsExactly(RestoreActions(fs), faults);
    RestoresAreRestores(fs);
  }

  /** The steps of an installation in their order. */
  function StepOrder(fs: Files, opts: Options): seq<Step> {
    [EnsureIdentity, MakeBinaryDir, MakeConfigDir, WriteFile(Binary)]
    + (if Config in fs then [] else [WriteFile(Config)])
    + [WriteFile(Unit), EncodeMarker, WriteFile(Marker), ReloadSystemd]
    + (if opts.startService then [EnableService, WaitReady] else [])
  }

  lemma StepsInOrder(fs: Files, opts: Options)
    ensures |InstallActions(fs, opts)| == |StepOrder(fs, opts)|
    ensures forall i :: 0 <= i < |StepOrder(fs, opts)| ==> InstallActions(fs, opts)[i].step == StepOrder(fs, opts)[i]
  {
  }

  /** An installation is rolled back because of the first of its steps that fails. */
  lemma FirstFailingStepIsTheCause(fs: Files, opts: Options, faults: Faults, i: nat)
    requires Cleared(fs, faults) && i < |StepOrder(fs, opts)| && StepOrder(fs, opts)[i] in faults
    requires forall j :: 0 <= j < i ==> StepOrder(fs, opts)[j] !in faults
    requires forall p: Path :: Restore(p) !in faults
    ensures InstallOutcome(fs, opts, faults) == RolledBack(StepOrder(fs, opts)[i])
  {
    ClearedExactly(fs, faults);
    StepsInOrder(fs, opts);
    RestoresAreRestores(fs);
    FailsExactly(RestoreActions(fs), faults);
    FirstIs(InstallActions(fs, opts), faults, i);
  }

  lemma FirstIs(actions: seq<Action>, faults: Faults, i: nat)
    requires i < |actions| && actions[i].step in faults
    requires forall j :: 0 <= j < i ==> actions[j].step !in faults
    ensures FirstFailure(actions, faults) == i
  {
  }

  lemma FailsExactly(actions: seq<Action>, faults: Faults)
    ensures FirstFailure(actions, faults) < |actions|
            <==> exists i :: 0 <= i < |actions| && actions[i].step in faults
  {
  }

  lemma RestoresAreRestores(fs: Files)
    ensures forall i :: 0 <= i < |RestoreActions(fs)| ==> RestoreActions(fs)[i].step.Restore?
  {
  }

  /** Nine permission bits from three octal digits. */
  function Octal(u: nat, g: nat, o: nat): nat { 64 * u + 8 * g + o }

  /** What a successful installation leaves, file by file. */
  lemma InstalledFiles(fs: Files, opts: Options, faults: Faults)
    requires InstallOutcome(fs, opts, faults) == Success
    ensures var now := ApplyAll(fs, InstallTrace(fs, opts, faults));
            && Binary in now && now[Binary] == File(opts.source, Octal(7, 5, 5), false)
            && Unit in now && now[Unit] == File(opts.unit, Octal(6, 4, 4), false)
            && Config in now
            && now[Config] == (if Config in fs then fs[Config] else File(opts.environment, Octal(6, 4, 0), false))
            && Marker in now && now[Marker].perm == Octal(6, 0, 0) && now[Marker].data.Json?
            && var doc := now[Marker].data.doc;
               && doc.version == opts.version && doc.installedAt == opts.now
               && doc.managedFiles == [Known(Binary), Known(Unit)]
               && (doc.configOwned <==> if Marker in fs then fs[Marker].data.doc.configOwned else Config !in fs)
  {
    SuccessfulInstall(fs, opts, faults);
    ClearedExactly(fs, faults);
  }

  // ---------------------------------------------------------------- repair

  /** Repair is an installation of an instance whose marker it sees; a success leaves what the installation does,
      and anything else it does only when that installation does it. */
  lemma RepairSucceedsExactly(fs: Files, opts: Options, first: Faults, second: Faults)
    ensures RepairOutcome(fs, opts, first, second) == Success
            <==> Marker in fs && StatFile(Marker) !in first && InstallOutcome(fs, opts, second) == Success
    ensures RepairOutcome(fs, opts, first, second) == Success ==>
              ApplyAll(fs, RepairTrace(fs, opts, first, second)) == Installed(fs, opts)
    ensures !(Marker in fs && StatFile(Marker) !in first) ==>
              && RepairTrace(fs, opts, first, second) == []
              && RepairOutcome(fs, opts, first, second) == Refused(NotManaged)
  {
    if RepairOutcome(fs, opts, first, second) == Success {
      SuccessfulInstall(fs, opts, second);
    }
  }

  /** On a managed instance whose marker can be read, a repair in which nothing fails installs it anew. */
  lemma CleanRepairInstalls(fs: Files, opts: Options)
    requires Marker in fs && fs[Marker].data.Json?
    ensures RepairOutcome(fs, opts, {}, {}) == Success
    ensures ApplyAll(fs, RepairTrace(fs, opts, {}, {})) == Installed(fs, opts)
  {
    ClearedExactly(fs, {});
    InstallSucceedsExactly(fs, opts, {});
    SuccessfulInstall(fs, opts, {});
  }

  // ---------------------------------------------------------------- uninstall

  /** An uninstall gets to its removals exactly for the superuser, with the marker seen, read and understood. */
  lemma UninstallRemovesExactly(fs: Files, purge: bool, faults: Faults)
    ensures Removes(fs, faults)
            <==> RootCheck !in faults && Marker in fs && StatFile(Marker) !in faults && ReadMarker !in faults
                 && fs[Marker].data.Json?
    ensures UninstallTrace(fs, purge, faults) != [] || UninstallOutcome(fs, purge, faults) == Success
            ==> RootCheck !in faults
    ensures UninstallTrace(fs, purge, faults) != [] ==> Removes(fs, faults)
  {
  }

  /** Of several reasons not to get there the first is reported: the superuser, external files, the marker. */
  lemma UninstallRefusedBecause(fs: Files, purge: bool, faults: Faults)
    ensures RootCheck in faults ==> UninstallOutcome(fs, purge, faults) == Refused(StepFailed(RootCheck))
    ensures RootCheck !in faults && Seen(fs, faults, Marker) && ReadMarker in faults ==>
              UninstallOutcome(fs, purge, faults) == Refused(StepFailed(ReadMarker))
    ensures RootCheck !in faults && Seen(fs, faults, Marker) && ReadMarker !in faults && !fs[Marker].data.Json? ==>
              UninstallOutcome(fs, purge, faults) == Refused(MarkerUnreadable)
  {
  }

  /** Whose removals all go through: the marker lists nothing but binary and unit, and no removal fails. */
  lemma RemovalsSucceedExactly(fs: Files, purge: bool, faults: Faults)
    requires Removes(fs, faults)
    ensures var doc := fs[Marker].data.doc;
            UninstallOutcome(fs, purge, faults) == Success
            <==> && (forall l :: l in doc.managedFiles ==> l == Known(Binary) || l == Known(Unit))
                 && (forall i :: 0 <= i < |doc.managedFiles| ==> RemoveListed(i) !in faults)
                 && (purge && doc.configOwned ==> RemoveConfig !in faults) && RemoveMarker !in faults
  {
    var doc := fs[Marker].data.doc;
    var listed, all := doc.managedFiles, Removals(doc, purge);
    FailsExactly(all, faults);
    var n := ExpectedPrefix(listed);
    assert n < |listed| ==> listed[n] in listed;
    if n == |listed| {
      var c := if purge && doc.configOwned then 1 else 0;
      assert |all| == n + c + 1 && all[n + c].step == RemoveMarker && (c == 1 ==> all[n].step == RemoveConfig);
      forall i | 0 <= i < n ensures all[i].step == RemoveListed(i) {}
    }
  }
}
