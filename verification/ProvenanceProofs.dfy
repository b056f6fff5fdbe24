/** Who made the configuration file, over every run of installs, repairs, uninstalls, crashes and
    operator edits: purging never deletes an operator's file. */
module ProvenanceProofs {
  import opened Wrappers
  import opened InstallSpec
  import opened InstallProofs
  import opened InterruptionProofs
  import opened UninstallProofs

  datatype Actor = TheInstaller | Operator

  /** The files, and who created the configuration that is present. Overwriting a file does not change its creator. */
  datatype World = World(files: Files, creator: Actor)

  function Touch(w: World, actor: Actor, op: Op): World {
    World(Apply(w.files, op), if op.Write? && op.path == Config && Config !in w.files then actor else w.creator)
  }

  function TouchAll(w: World, actor: Actor, ops: seq<Op>): World {
    if ops == [] then w else Touch(TouchAll(w, actor, ops[..|ops| - 1]), actor, ops[|ops| - 1])
  }

  /** One thing that happens to a machine. Each installer call may fail in any way and may be cut off
      after any number of its file operations. */
  datatype Move =
    | Install(opts: Options, faults: Faults, upTo: nat)
    | Repair(opts: Options, first: Faults, second: Faults, upTo: nat)
    | Uninstall(purge: bool, faults: Faults, upTo: nat)
    | Operate(op: Op)

  function CutAt(ops: seq<Op>, n: nat): seq<Op> { if n < |ops| then ops[..n] else ops }

  function Next(w: World, m: Move): World {
    match m
    case Install(opts, faults, n) => TouchAll(w, TheInstaller, CutAt(InstallTrace(w.files, opts, faults), n))
    case Repair(opts, first, second, n) =>
      TouchAll(w, TheInstaller, CutAt(RepairTrace(w.files, opts, first, second), n))
    case Uninstall(purge, faults, n) => TouchAll(w, TheInstaller, CutAt(UninstallTrace(w.files, purge, faults), n))
    case Operate(op) => Touch(w, Operator, op)
  }

  function RunAll(w: World, moves: seq<Move>): World {
    if moves == [] then w else Next(RunAll(w, moves[..|moves| - 1]), moves[|moves| - 1])
  }

  /** A marker that claims the configuration implies that the installer created the one that is there. */
  predicate Provenance(w: World) {
    ClaimingMarker(w.files) && Config in w.files ==> w.creator == TheInstaller
  }

  /** What an operator must not do: create a configuration while a marker claims it. */
  predicate CreatesClaimedConfig(w: World, m: Move) {
    m.Operate? && m.op.Write? && m.op.path == Config && Config !in w.files && ClaimingMarker(w.files)
  }

  /** Nor may an operator put a claiming marker beside a configuration of an operator's making. */
  predicate ClaimsTheirs(w: World, m: Move) {
    && m.Operate? && m.op.Write? && m.op.path == Marker && m.op.file.data.Json? && m.op.file.data.doc.configOwned
    && Config in w.files && w.creator == Operator
  }

  predicate LegalMove(w: World, m: Move) { !CreatesClaimedConfig(w, m) && !ClaimsTheirs(w, m) }

  predicate LegalRun(w: World, moves: seq<Move>) {
    forall i :: 0 <= i < |moves| ==> LegalMove(RunAll(w, moves[..i]), moves[i])
  }

  // ---------------------------------------------------------------- one move

  lemma {:induction false} TouchAllFiles(w: World, actor: Actor, ops: seq<Op>)
    ensures TouchAll(w, actor, ops).files == ApplyAll(w.files, ops)
  {
    if ops != [] {
      TouchAllFiles(w, actor, ops[..|ops| - 1]);
    }
  }

  /** Half-way through an installation that started in `was`. */
  predicate Midway(was: World, w: World) {
    && (Config in was.files ==> Config in w.files && w.creator == was.creator)
    && (Config !in was.files && Config in w.files ==> w.creator == TheInstaller)
    && (ClaimingMarker(w.files) ==> ClaimsConfig(was.files))
  }

  lemma {:induction false} InstallOpsStayMidway(was: World, opts: Options, ops: seq<Op>)
    requires forall op :: op in ops ==> InstallOp(was.files, opts, op)
    ensures Midway(was, TouchAll(was, TheInstaller, ops))
  {
    if ops != [] {
      var last := ops[|ops| - 1];
      assert InstallOp(was.files, opts, last);
      InstallOpsStayMidway(was, opts, ops[..|ops| - 1]);
    }
  }

  lemma InstallKeepsProvenance(w: World, opts: Options, faults: Faults, n: nat)
    requires Provenance(w)
    ensures Provenance(TouchAll(w, TheInstaller, CutAt(InstallTrace(w.files, opts, faults), n)))
    ensures Config in w.files ==>
              Config in TouchAll(w, TheInstaller, CutAt(InstallTrace(w.files, opts, faults), n)).files
  {
    InstallTraceOps(w.files, opts, faults);
    InstallOpsStayMidway(w, opts, CutAt(InstallTrace(w.files, opts, faults), n));
  }

  lemma {:induction false} RemovalsKeepCreator(w: World, ops: seq<Op>)
    requires forall op :: op in ops ==> op.Remove?
    ensures TouchAll(w, TheInstaller, ops).creator == w.creator
  {
    if ops != [] {
      assert ops[|ops| - 1] in ops;
      RemovalsKeepCreator(w, ops[..|ops| - 1]);
    }
  }

  lemma UninstallKeepsProvenance(w: World, purge: bool, faults: Faults, n: nat)
    requires Provenance(w)
    ensures var next := TouchAll(w, TheInstaller, CutAt(UninstallTrace(w.files, purge, faults), n));
            && Provenance(next)
            && (Config in w.files && Config !in next.files ==> w.creator == TheInstaller)
  {
    var ops := CutAt(UninstallTrace(w.files, purge, faults), n);
    TraceRemoves(w.files, purge, faults);
    TouchAllFiles(w, TheInstaller, ops);
    RemovingMany(w.files, ops);
    RemovalsKeepCreator(w, ops);
    assert PathsOf(ops) <= PathsOf(UninstallTrace(w.files, purge, faults));
  }

  /** Of all installer calls and operator moves, exactly two break provenance, both an operator's; and a call
      to the installer removes a configuration only if the installer created it. */
  lemma MoveKeepsProvenanceExactly(w: World, m: Move)
    requires Provenance(w)
    ensures Provenance(Next(w, m)) <==> !CreatesClaimedConfig(w, m) && !ClaimsTheirs(w, m)
    ensures !m.Operate? && Config in w.files && Config !in Next(w, m).files ==> w.creator == TheInstaller
  {
    match m
    case Install(opts, faults, n) => InstallKeepsProvenance(w, opts, faults, n);
    case Repair(opts, first, second, n) =>
      if SeenOwnership(w.files, first) == Managed {
        InstallKeepsProvenance(w, opts, second, n);
      }
    case Uninstall(purge, faults, n) => UninstallKeepsProvenance(w, purge, faults, n);
    case Operate(op) =>
  }

  // ---------------------------------------------------------------- every run

  lemma {:induction false} RunKeepsProvenance(w: World, moves: seq<Move>)
    requires Provenance(w) && LegalRun(w, moves)
    ensures Provenance(RunAll(w, moves))
  {
    if moves != [] {
      var init := moves[..|moves| - 1];
      assert forall i :: 0 <= i <= |init| ==> init[..i] == moves[..i];
      RunKeepsProvenance(w, init);
      MoveKeepsProvenanceExactly(RunAll(w, init), moves[|moves| - 1]);
    }
  }

  /** Over every legal run from a machine with provenance, such as one without a marker: whenever an
      installer call makes the configuration disappear, the installer had created it. */
  lemma PurgeNeverDeletesAnOperatorsFile(w: World, moves: seq<Move>, i: nat)
    requires Provenance(w) && LegalRun(w, moves) && i < |moves|
    requires !moves[i].Operate?
    ensures var before, after := RunAll(w, moves[..i]), RunAll(w, moves[..i + 1]);
            Config in before.files && Config !in after.files ==> before.creator == TheInstaller
  {
    assert forall j :: 0 <= j <= i ==> moves[..i][..j] == moves[..j];
    assert LegalRun(w, moves[..i]) by {
      forall j | 0 <= j < i ensures LegalMove(RunAll(w, moves[..i][..j]), moves[..i][j]) {
        assert moves[..i][j] == moves[j];
      }
    }
    RunKeepsProvenance(w, moves[..i]);
    MoveKeepsProvenanceExactly(RunAll(w, moves[..i]), moves[i]);
    assert moves[..i + 1][..i] == moves[..i] && moves[..i + 1][i] == moves[i];
  }

  /** The first forbidden move: an operator creates a claimed configuration and loses it to a purge. */
  lemma CreatingAClaimedConfigLosesIt(opts: Options, theirs: File)
    ensures var installed := Next(World(map[], Operator), Install(opts, {}, 10));
            var deleted := Next(installed, Operate(Remove(Config)));
            var created := Next(deleted, Operate(Write(Config, theirs)));
            var purged := Next(created, Uninstall(true, {}, 10));
            && CreatesClaimedConfig(deleted, Operate(Write(Config, theirs)))
            && created.creator == Operator && Config in created.files && created.files[Config] == theirs
            && Config !in purged.files
  {
    var empty := World(map[], Operator);
    NoCaptureError(MANAGED_PATHS, {});
    assert InstallOutcome(empty.files, opts, {}) == Success;
    SuccessfulInstall(empty.files, opts, {});
    TouchAllFiles(empty, TheInstaller, InstallTrace(empty.files, opts, {}));
    var installed := Next(empty, Install(opts, {}, 10));
    var created := Next(Next(installed, Operate(Remove(Config))), Operate(Write(Config, theirs)));
    assert created.files[Marker] == MarkerFile(map[], opts);
    PurgeRemovesClaimed(created);
  }

  /** The second: an operator creates a configuration where there is no marker, puts a claiming marker back,
      and loses the configuration to a purge. */
  lemma RestoringAMarkerLosesIt(theirs: File, spelling: string, version: string, now: string)
    ensures var doc := MarkerDoc(version, [Known(Binary), Known(Unit)], true, now);
            var marker := File(Json(spelling, doc), 0x180, false);
            var created := Next(World(map[], Operator), Operate(Write(Config, theirs)));
            var restored := Next(created, Operate(Write(Marker, marker)));
            var purged := Next(restored, Uninstall(true, {}, 10));
            && ClaimsTheirs(created, Operate(Write(Marker, marker)))
            && restored.creator == Operator && Config in restored.files && restored.files[Config] == theirs
            && Config !in purged.files
  {
    var doc := MarkerDoc(version, [Known(Binary), Known(Unit)], true, now);
    var marker := File(Json(spelling, doc), 0x180, false);
    var created := Next(World(map[], Operator), Operate(Write(Config, theirs)));
    PurgeRemovesClaimed(Next(created, Operate(Write(Marker, marker))));
  }

  lemma PurgeRemovesClaimed(w: World)
    requires ClaimingMarker(w.files) && w.files[Marker].data.doc.managedFiles == [Known(Binary), Known(Unit)]
    ensures Config !in Next(w, Uninstall(true, {}, 10)).files
  {
    var doc := w.files[Marker].data.doc;
    assert ExpectedPrefix(doc.managedFiles) == 2;
    assert Removes(w.files, {}) && UninstallOutcome(w.files, true, {}) == Success;
    CompletedTrace(w.files, true, {});
    CompletedRemovals(w.files, true, {});
    TouchAllFiles(w, TheInstaller, UninstallTrace(w.files, true, {}));
  }

  // ---------------------------------------------------------------- markers over every run

  /** The marker, if there is one, is as the installer writes it. */
  predicate MarkerListsBoth(fs: Files) {
    Marker in fs ==> fs[Marker].data.Json? && fs[Marker].data.doc.managedFiles == [Known(Binary), Known(Unit)]
  }

  predicate WritesMarker(m: Move) { m.Operate? && m.op.Write? && m.op.path == Marker }

  lemma InstallKeepsListing(fs: Files, opts: Options, ops: seq<Op>)
    requires MarkerListsBoth(fs)
    requires forall op :: op in ops ==> InstallOp(fs, opts, op)
    ensures MarkerListsBoth(ApplyAll(fs, ops))
  {
    OldOrNewAlong(fs, opts, ops);
    assert OldOrNew(fs, opts, ApplyAll(fs, ops), Marker);
  }

  lemma MoveKeepsListing(w: World, m: Move)
    requires MarkerListsBoth(w.files) && !WritesMarker(m)
    ensures MarkerListsBoth(Next(w, m).files)
  {
    match m
    case Install(opts, faults, n) => TracedInstallKeepsListing(w, opts, faults, n);
    case Repair(opts, first, second, n) =>
      if SeenOwnership(w.files, first) == Managed {
        TracedInstallKeepsListing(w, opts, second, n);
      }
    case Uninstall(purge, faults, n) =>
      var ops := CutAt(UninstallTrace(w.files, purge, faults), n);
      TraceRemoves(w.files, purge, faults);
      TouchAllFiles(w, TheInstaller, ops);
      RemovingMany(w.files, ops);
    case Operate(op) =>
  }

  lemma TracedInstallKeepsListing(w: World, opts: Options, faults: Faults, n: nat)
    requires MarkerListsBoth(w.files)
    ensures MarkerListsBoth(TouchAll(w, TheInstaller, CutAt(InstallTrace(w.files, opts, faults), n)).files)
  {
    var ops := CutAt(InstallTrace(w.files, opts, faults), n);
    InstallTraceOps(w.files, opts, faults);
    TouchAllFiles(w, TheInstaller, ops);
    InstallKeepsListing(w.files, opts, ops);
  }

  lemma {:induction false} RunKeepsListing(w: World, moves: seq<Move>)
    requires MarkerListsBoth(w.files) && forall i :: 0 <= i < |moves| ==> !WritesMarker(moves[i])
    ensures MarkerListsBoth(RunAll(w, moves).files)
  {
    if moves != [] {
      RunKeepsListing(w, moves[..|moves| - 1]);
      MoveKeepsListing(RunAll(w, moves[..|moves| - 1]), moves[|moves| - 1]);
    }
  }

  /** Over every run, cut off and failing calls included, in which the operator may do anything but write the
      marker: an uninstall that reports success ends Disabled exactly when it saw the marker, or there was
      nothing to do. */
  lemma UninstallAfterAnyRun(w: World, moves: seq<Move>, purge: bool, faults: Faults)
    requires Marker !in w.files && forall i :: 0 <= i < |moves| ==> !WritesMarker(moves[i])
    requires UninstallOutcome(RunAll(w, moves).files, purge, faults) == Success
    ensures var fs := RunAll(w, moves).files;
            OwnershipOf(ApplyAll(fs, UninstallTrace(fs, purge, faults))) == Disabled
            <==> OwnershipOf(fs) == Disabled || Seen(fs, faults, Marker)
  {
    RunKeepsListing(w, moves);
    var fs := RunAll(w, moves).files;
    SuccessfulUninstallEndsDisabledExactly(fs, purge, faults);
    if Marker in fs {
      var listed := fs[Marker].data.doc.managedFiles;
      assert listed[0] == Known(Binary) && listed[1] == Known(Unit);
    }
  }

  // ---------------------------------------------------------------- external files over every run

  /** A call in which an installation, if it is one, sees that the files are external. */
  predicate SeesExternal(fs: Files, m: Move) {
    match m
    case Install(_, faults, _) => SeenOwnership(fs, faults) == External
    case Repair(_, _, _, _) => true
    case Uninstall(_, _, _) => true
    case Operate(_) => false
  }

  lemma MoveLeavesExternal(w: World, m: Move)
    requires OwnershipOf(w.files) == External && SeesExternal(w.files, m)
    ensures Next(w, m) == w
  {
    match m
    case Install(opts, faults, _) => assert InstallTrace(w.files, opts, faults) == [];
    case Repair(opts, first, second, _) => assert RepairTrace(w.files, opts, first, second) == [];
    case Uninstall(purge, faults, _) => assert UninstallTrace(w.files, purge, faults) == [];
  }

  /** External is a fixed point: no run of installer calls changes external files or who made them, whatever
      fails, as long as each installation has one successful stat of a file that is there. */
  lemma {:induction false} ExternalIsFixedPoint(w: World, moves: seq<Move>)
    requires OwnershipOf(w.files) == External
    requires forall i :: 0 <= i < |moves| ==> SeesExternal(w.files, moves[i])
    ensures RunAll(w, moves) == w
  {
    if moves != [] {
      ExternalIsFixedPoint(w, moves[..|moves| - 1]);
      MoveLeavesExternal(w, moves[|moves| - 1]);
    }
  }
}
