/** The installer as the source writes it: ordered writes and removals on a disk, with a captured
    snapshot that a rollback writes back. */
module Installer {
  import opened Wrappers
  import opened InstallSpec

  datatype Captured = Absent | Present(data: Content, perm: nat)

  class Disk {
    var files: Files

    constructor (files: Files)
      ensures this.files == files
    {
      this.files := files;
    }

    /** A temporary file renamed over the target; nothing changes when any part of it fails. */
    method WriteAtomic(p: Path, data: Content, perm: nat, fails: bool) returns (ok: bool)
      modifies this
      ensures ok == !fails
      ensures files == if fails then old(files) else Apply(old(files), Write(p, File(data, perm, false)))
    {
      if fails {
        return false;
      }
      files := files[p := File(data, perm, false)];
      return true;
    }

    method RemoveIfExists(p: Path, fails: bool) returns (ok: bool)
      modifies this
      ensures ok == !fails
      ensures files == if fails then old(files) else Apply(old(files), Remove(p))
    {
      if fails {
        return false;
      }
      if p in files {
        files := files - {p};
      } else {
        assert files - {p} == files;
      }
      return true;
    }

    method ReadOptional(p: Path, fails: bool) returns (ok: bool, c: Captured)
      ensures ok == !fails
      ensures ok ==> c == CaptureOf(files, p)
    {
      if fails {
        return false, Absent;
      }
      if p !in files {
        return true, Absent;
      }
      return true, Present(files[p].data, files[p].perm);
    }
  }

  type Snapshot = map<Path, Captured>

  function CaptureOf(fs: Files, p: Path): Captured {
    if p in fs then Present(fs[p].data, fs[p].perm) else Absent
  }

  /** The snapshot holds contents and permission bits of every managed path. */
  ghost predicate Holds(snapshot: Snapshot, fs: Files) {
    forall p: Path :: p in snapshot && snapshot[p] == CaptureOf(fs, p)
  }

  /** The first `n` actions went through, and their effects are what happened to the files since `before`. */
  ghost predicate Reached(before: Files, actions: seq<Action>, n: nat, faults: Faults, now: Files) {
    && n <= |actions|
    && (forall i :: 0 <= i < n ==> actions[i].step !in faults)
    && now == ApplyAll(before, Effects(actions[..n]))
  }

  lemma Advance(before: Files, actions: seq<Action>, n: nat, faults: Faults, now: Files, next: Files)
    requires n < |actions| && Reached(before, actions, n, faults, now)
    requires actions[n].step !in faults
    requires next == if actions[n].effect.Some? then Apply(now, actions[n].effect.value) else now
    ensures Reached(before, actions, n + 1, faults, next)
  {
    var done, more := Effects(actions[..n]), Effects(actions[..n + 1]);
    assert actions[..n + 1][..n] == actions[..n];
    assert actions[n].effect.Some? ==> more == done + [actions[n].effect.value] && more[..|done|] == done;
  }

  lemma InstallActionsAt(before: Files, opts: Options)
    ensures var acts, c := InstallActions(before, opts), if Config !in before then 1 else 0;
            && |acts| == 8 + c + (if opts.startService then 2 else 0)
            && acts[0] == Action(EnsureIdentity, None) && acts[1] == Action(MakeBinaryDir, None)
            && acts[2] == Action(MakeConfigDir, None)
            && acts[3] == WriteAction(Binary, BinaryFile(opts))
            && (c == 1 ==> acts[4] == WriteAction(Config, ConfigFile(opts)))
            && acts[4 + c] == WriteAction(Unit, UnitFile(opts))
            && acts[5 + c] == Action(EncodeMarker, None)
            && acts[6 + c] == WriteAction(Marker, MarkerFile(before, opts))
            && acts[7 + c] == Action(ReloadSystemd, None)
            && (opts.startService ==>
                  acts[8 + c] == Action(EnableService, None) && acts[9 + c] == Action(WaitReady, None))
  {
  }

  class Manager {
    const disk: Disk

    constructor (disk: Disk)
      ensures this.disk == disk
    {
      this.disk := disk;
    }

    method FileExists(p: Path, faults: Faults) returns (exists_: bool)
      ensures exists_ == Seen(disk.files, faults, p)
    {
      exists_ := StatFile(p) !in faults && p in disk.files;
    }

    method RuntimeOwnership(faults: Faults) returns (o: Ownership)
      ensures o == SeenOwnership(disk.files, faults)
    {
      var marker := FileExists(Marker, faults);
      var binary := FileExists(Binary, faults);
      var unit := FileExists(Unit, faults);
      if marker {
        return Managed;
      }
      if binary || unit {
        return External;
      }
      return Disabled;
    }

    method CaptureSnapshot(faults: Faults) returns (err: Option<Step>, snapshot: Snapshot)
      ensures err == FirstCaptureError(MANAGED_PATHS, faults)
      ensures err == None ==> Holds(snapshot, disk.files)
    {
      snapshot := map[];
      for i := 0 to |MANAGED_PATHS|
        invariant FirstCaptureError(MANAGED_PATHS, faults) == FirstCaptureError(MANAGED_PATHS[i..], faults)
        invariant forall p :: p in MANAGED_PATHS[..i] ==> p in snapshot && snapshot[p] == CaptureOf(disk.files, p)
      {
        assert MANAGED_PATHS[i..][1..] == MANAGED_PATHS[i + 1..];
        var p := MANAGED_PATHS[i];
        var ok, c := disk.ReadOptional(p, Capture(p) in faults);
        if !ok {
          return Some(Capture(p)), snapshot;
        }
        snapshot := snapshot[p := c];
      }
      assert MANAGED_PATHS[..4] == MANAGED_PATHS;
      forall p: Path ensures p in MANAGED_PATHS {
        match p
        case Binary => assert MANAGED_PATHS[0] == p;
        case Config => assert MANAGED_PATHS[1] == p;
        case Unit => assert MANAGED_PATHS[2] == p;
        case Marker => assert MANAGED_PATHS[3] == p;
      }
      return None, snapshot;
    }

    method RestoreSnapshot(snapshot: Snapshot, ghost before: Files, faults: Faults) returns (err: Option<Step>)
      requires Holds(snapshot, before)
      modifies disk
      ensures disk.files == ApplyAll(old(disk.files), Performed(RestoreActions(before), faults))
      ensures var r := FirstFailure(RestoreActions(before), faults);
              err == if r == 4 then None else Some(RestoreActions(before)[r].step)
    {
      ghost var actions := RestoreActions(before);
      for i := 0 to |MANAGED_PATHS|
        invariant Reached(old(disk.files), actions, i, faults, disk.files)
      {
        var p := MANAGED_PATHS[i];
        assert actions[i] == RestoreAction(before, p);
        ghost var now := disk.files;
        var ok;
        match snapshot[p] {
          case Present(data, perm) =>
            ok := disk.WriteAtomic(p, data, perm, Restore(p) in faults);
          case Absent =>
            ok := disk.RemoveIfExists(p, Restore(p) in faults);
        }
        if !ok {
          assert FirstFailure(actions, faults) == i;
          return Some(Restore(p));
        }
        Advance(old(disk.files), actions, i, faults, now, disk.files);
      }
      return None;
    }

    /** The rollback closure: put the snapshot back, whatever the daemon says, and keep the cause. It runs
        when the `n`-th step of the installation fails. */
    method Rollback(cause: Step, snapshot: Snapshot, faults: Faults, ghost before: Files, ghost opts: Options,
                    ghost n: nat) returns (r: Outcome)
      requires Holds(snapshot, before) && Precheck(before, faults) == None
      requires Reached(before, InstallActions(before, opts), n, faults, disk.files)
      requires n < |InstallActions(before, opts)| && cause == InstallActions(before, opts)[n].step && cause in faults
      modifies disk
      ensures disk.files == ApplyAll(before, InstallTrace(before, opts, faults))
      ensures r == InstallOutcome(before, opts, faults)
    {
      ghost var actions := InstallActions(before, opts);
      assert FirstFailure(actions, faults) == n;
      ApplyAllConcat(before, Performed(actions, faults), Performed(RestoreActions(before), faults));
      var err := RestoreSnapshot(snapshot, before, faults);
      if err.Some? {
        return RollbackFailed(cause, err.value);
      }
      return RolledBack(cause);
    }

    method ReadMarkerDoc(faults: Faults) returns (r: Result<MarkerDoc, Refusal>)
      requires Marker in disk.files
      ensures r == if ReadMarker in faults then Err(StepFailed(ReadMarker))
                   else if disk.files[Marker].data.Json? then Ok(disk.files[Marker].data.doc)
                   else Err(MarkerUnreadable)
    {
      if ReadMarker in faults {
        return Err(StepFailed(ReadMarker));
      }
      match disk.files[Marker].data {
        case Json(_, doc) => return Ok(doc);
        case Text(_) => return Err(MarkerUnreadable);
      }
    }

    /** The checks of `Install` up to the snapshot. */
    method Prepare(faults: Faults) returns (refusal: Option<Refusal>, snapshot: Snapshot, owned: bool)
      ensures refusal == Precheck(disk.files, faults)
      ensures refusal == None ==> Holds(snapshot, disk.files) && owned == ClaimsConfig(disk.files)
    {
      snapshot, owned := map[], false;
      if RootCheck in faults { return Some(StepFailed(RootCheck)), snapshot, owned; }
      if SourcePath in faults { return Some(StepFailed(SourcePath)), snapshot, owned; }
      if SourceStat in faults { return Some(StepFailed(SourceStat)), snapshot, owned; }
      if SourceRegular in faults { return Some(StepFailed(SourceRegular)), snapshot, owned; }
      var ownership := RuntimeOwnership(faults);
      if SystemdProbe in faults { return Some(StepFailed(SystemdProbe)), snapshot, owned; }
      if OllamaProbe in faults { return Some(StepFailed(OllamaProbe)), snapshot, owned; }
      if ownership == External { return Some(ExternallyOwned), snapshot, owned; }
      var err;
      err, snapshot := CaptureSnapshot(faults);
      if err.Some? { return Some(StepFailed(err.value)), snapshot, owned; }
      owned := snapshot[Config] == Absent;
      if snapshot[Marker] != Absent {
        var previous := ReadMarkerDoc(faults);
        if previous.Err? { return Some(previous.error), snapshot, owned; }
        owned := previous.value.configOwned;
      }
      return None, snapshot, owned;
    }

    method Install(opts: Options, faults: Faults) returns (r: Outcome)
      modifies disk
      ensures disk.files == ApplyAll(old(disk.files), InstallTrace(old(disk.files), opts, faults))
      ensures r == InstallOutcome(old(disk.files), opts, faults)
    {
      ghost var before := disk.files;
      var refusal, snapshot, owned := Prepare(faults);
      if refusal.Some? {
        return Refused(refusal.value);
      }
      var configExisted := snapshot[Config] != Absent;
      ghost var acts := InstallActions(before, opts);
      InstallActionsAt(before, opts);
      assert Reached(before, acts, 0, faults, disk.files);

      if EnsureIdentity in faults {
        r := Rollback(EnsureIdentity, snapshot, faults, before, opts, 0);
        return;
      }
      Advance(before, acts, 0, faults, before, disk.files);
      if MakeBinaryDir in faults {
        r := Rollback(MakeBinaryDir, snapshot, faults, before, opts, 1);
        return;
      }
      Advance(before, acts, 1, faults, before, disk.files);
      if MakeConfigDir in faults {
        r := Rollback(MakeConfigDir, snapshot, faults, before, opts, 2);
        return;
      }
      Advance(before, acts, 2, faults, before, disk.files);
      r := WriteFiles(opts, faults, snapshot, configExisted, owned, before);
    }

    /** The four writes of `Install` and the activation after them. */
    method WriteFiles(opts: Options, faults: Faults, snapshot: Snapshot, configExisted: bool, owned: bool,
                      ghost before: Files)
      returns (r: Outcome)
      requires Holds(snapshot, before) && Precheck(before, faults) == None
      requires configExisted == (Config in before) && owned == ClaimsConfig(before)
      requires Reached(before, InstallActions(before, opts), 3, faults, disk.files)
      modifies disk
      ensures disk.files == ApplyAll(before, InstallTrace(before, opts, faults))
      ensures r == InstallOutcome(before, opts, faults)
    {
      ghost var acts, n := InstallActions(before, opts), 3;
      InstallActionsAt(before, opts);
      ghost var now := disk.files;
      var ok := disk.WriteAtomic(Binary, opts.source, 0x1ED, WriteFile(Binary) in faults);
      if !ok {
        r := Rollback(WriteFile(Binary), snapshot, faults, before, opts, n);
        return;
      }
      Advance(before, acts, n, faults, now, disk.files);
      n, now := n + 1, disk.files;
      if !configExisted {
        ok := disk.WriteAtomic(Config, opts.environment, 0x1A0, WriteFile(Config) in faults);
        if !ok {
          r := Rollback(WriteFile(Config), snapshot, faults, before, opts, n);
          return;
        }
        Advance(before, acts, n, faults, now, disk.files);
        n, now := n + 1, disk.files;
      }
      ok := disk.WriteAtomic(Unit, opts.unit, 0x1A4, WriteFile(Unit) in faults);
      if !ok {
        r := Rollback(WriteFile(Unit), snapshot, faults, before, opts, n);
        return;
      }
      Advance(before, acts, n, faults, now, disk.files);
      n, now := n + 1, disk.files;
      r := WriteMarkerAndStart(opts, faults, snapshot, owned, before, n);
    }

    method WriteMarkerAndStart(opts: Options, faults: Faults, snapshot: Snapshot, owned: bool, ghost before: Files,
                               ghost start: nat)
      returns (r: Outcome)
      requires Holds(snapshot, before) && Precheck(before, faults) == None
      requires owned == ClaimsConfig(before) && start == (if Config !in before then 6 else 5)
      requires Reached(before, InstallActions(before, opts), start, faults, disk.files)
      modifies disk
      ensures disk.files == ApplyAll(before, InstallTrace(before, opts, faults))
      ensures r == InstallOutcome(before, opts, faults)
    {
      ghost var acts := InstallActions(before, opts);
      InstallActionsAt(before, opts);
      var managed := MarkerDoc(opts.version, [Known(Binary), Known(Unit)], owned, opts.now);
      if EncodeMarker in faults {
        r := Rollback(EncodeMarker, snapshot, faults, before, opts, start);
        return;
      }
      Advance(before, acts, start, faults, disk.files, disk.files);
      ghost var now := disk.files;
      var ok := disk.WriteAtomic(Marker, Json("indented", managed), 0x180, WriteFile(Marker) in faults);
      if !ok {
        r := Rollback(WriteFile(Marker), snapshot, faults, before, opts, start + 1);
        return;
      }
      Advance(before, acts, start + 1, faults, now, disk.files);
      if ReloadSystemd in faults {
        r := Rollback(ReloadSystemd, snapshot, faults, before, opts, start + 2);
        return;
      }
      Advance(before, acts, start + 2, faults, disk.files, disk.files);
      if opts.startService {
        if EnableService in faults {
          r := Rollback(EnableService, snapshot, faults, before, opts, start + 3);
          return;
        }
        Advance(before, acts, start + 3, faults, disk.files, disk.files);
        if WaitReady in faults {
          r := Rollback(WaitReady, snapshot, faults, before, opts, start + 4);
          return;
        }
        Advance(before, acts, start + 4, faults, disk.files, disk.files);
      }
      assert FirstFailure(acts, faults) == |acts|;
      assert InstallTrace(before, opts, faults) == Performed(acts, faults);
      return Success;
    }

    method Repair(opts: Options, first: Faults, second: Faults) returns (r: Outcome)
      modifies disk
      ensures disk.files == ApplyAll(old(disk.files), RepairTrace(old(disk.files), opts, first, second))
      ensures r == RepairOutcome(old(disk.files), opts, first, second)
    {
      var ownership := RuntimeOwnership(first);
      if ownership != Managed {
        return Refused(NotManaged);
      }
      r := Install(opts, second);
    }

    /** Removes the listed paths in order, refusing the first unexpected one. */
    method RemoveListedPaths(listed: seq<ListedPath>, faults: Faults) returns (refusal: Option<Refusal>)
      modifies disk
      ensures var k := ExpectedPrefix(listed);
              var actions := ListedRemovals(listed, k);
              var n := FirstFailure(actions, faults);
              && disk.files == ApplyAll(old(disk.files), Performed(actions, faults))
              && refusal == if n < k then Some(StepFailed(RemoveListed(n)))
                            else if k < |listed| then Some(UnexpectedPath(listed[k]))
                            else None
    {
      ghost var k := ExpectedPrefix(listed);
      ghost var actions := ListedRemovals(listed, k);
      for i := 0 to |listed|
        invariant i <= k
        invariant Reached(old(disk.files), actions, i, faults, disk.files)
      {
        if listed[i] != Known(Binary) && listed[i] != Known(Unit) {
          assert i == k && FirstFailure(actions, faults) == k;
          return Some(UnexpectedPath(listed[i]));
        }
        ghost var now := disk.files;
        var ok := disk.RemoveIfExists(listed[i].path, RemoveListed(i) in faults);
        if !ok {
          assert FirstFailure(actions, faults) == i;
          return Some(StepFailed(RemoveListed(i)));
        }
        Advance(old(disk.files), actions, i, faults, now, disk.files);
      }
      assert FirstFailure(actions, faults) == k && actions[..k] == actions;
      return None;
    }

    method Uninstall(purge: bool, faults: Faults) returns (r: Outcome)
      modifies disk
      ensures disk.files == ApplyAll(old(disk.files), UninstallTrace(old(disk.files), purge, faults))
      ensures r == UninstallOutcome(old(disk.files), purge, faults)
    {
      ghost var before := disk.files;
      if RootCheck in faults {
        return Refused(StepFailed(RootCheck));
      }
      var ownership := RuntimeOwnership(faults);
      if ownership == Disabled {
        return Success;
      }
      if ownership == External {
        return Refused(ExternallyOwned);
      }
      var managed := ReadMarkerDoc(faults);
      if managed.Err? {
        return Refused(managed.error);
      }
      r := RemoveManaged(managed.value, purge, faults);
    }

    /** Everything a readable marker leads `Uninstall` to do. */
    method RemoveManaged(doc: MarkerDoc, purge: bool, faults: Faults) returns (r: Outcome)
      modifies disk
      ensures disk.files == ApplyAll(old(disk.files), Performed(Removals(doc, purge), faults))
      ensures r == RemovalOutcome(doc, purge, faults)
    {
      ghost var before := disk.files;
      var refusal := RemoveListedPaths(doc.managedFiles, faults);
      ghost var k := ExpectedPrefix(doc.managedFiles);
      if refusal.Some? {
        if FirstFailure(ListedRemovals(doc.managedFiles, k), faults) < k {
          StoppedByFailure(doc, purge, faults);
        } else {
          StoppedByPath(doc, purge, faults);
        }
        return Refused(refusal.value);
      }
      AllListedRemoved(doc, purge, faults);
      var failed := RemoveOwnFiles(doc, purge, faults, before);
      if failed.Some? {
        return Refused(StepFailed(failed.value));
      }
      return Success;
    }

    /** The last removals: the configuration when it is purged and owned, then the marker. */
    method RemoveOwnFiles(doc: MarkerDoc, purge: bool, faults: Faults, ghost before: Files)
      returns (failed: Option<Step>)
      requires ExpectedPrefix(doc.managedFiles) == |doc.managedFiles|
      requires Reached(before, Removals(doc, purge), |doc.managedFiles|, faults, disk.files)
      modifies disk
      ensures disk.files == ApplyAll(before, Performed(Removals(doc, purge), faults))
      ensures var all := Removals(doc, purge);
              var n := FirstFailure(all, faults);
              failed == if n < |all| then Some(all[n].step) else None
    {
      ghost var k, all := |doc.managedFiles|, Removals(doc, purge);
      ghost var m := k;
      if purge && doc.configOwned {
        assert all[k] == Action(RemoveConfig, Some(Remove(Config)));
        ghost var now := disk.files;
        var ok := disk.RemoveIfExists(Config, RemoveConfig in faults);
        if !ok {
          assert FirstFailure(all, faults) == k;
          return Some(RemoveConfig);
        }
        Advance(before, all, k, faults, now, disk.files);
        m := k + 1;
      }
      assert all[m] == Action(RemoveMarker, Some(Remove(Marker))) && |all| == m + 1;
      ghost var now := disk.files;
      var ok := disk.RemoveIfExists(Marker, RemoveMarker in faults);
      if !ok {
        assert FirstFailure(all, faults) == m;
        return Some(RemoveMarker);
      }
      Advance(before, all, m, faults, now, disk.files);
      assert FirstFailure(all, faults) == m + 1;
      return None;
    }
  }

  lemma ListedIsPrefix(doc: MarkerDoc, purge: bool)
    ensures ListedRemovals(doc.managedFiles, ExpectedPrefix(doc.managedFiles)) <= Removals(doc, purge)
  {
  }

  /** A listed file that cannot be removed stops an uninstall. */
  lemma StoppedByFailure(doc: MarkerDoc, purge: bool, faults: Faults)
    requires var k := ExpectedPrefix(doc.managedFiles); FirstFailure(ListedRemovals(doc.managedFiles, k), faults) < k
    ensures var listed := ListedRemovals(doc.managedFiles, ExpectedPrefix(doc.managedFiles));
            && Performed(Removals(doc, purge), faults) == Performed(listed, faults)
            && RemovalOutcome(doc, purge, faults) == Refused(StepFailed(RemoveListed(FirstFailure(listed, faults))))
  {
    var listed := ListedRemovals(doc.managedFiles, ExpectedPrefix(doc.managedFiles));
    var n := FirstFailure(listed, faults);
    ListedIsPrefix(doc, purge);
    assert Removals(doc, purge)[n] == listed[n];
    assert forall i :: 0 <= i < n ==> Removals(doc, purge)[i] == listed[i];
    assert FirstFailure(Removals(doc, purge), faults) == n;
    assert Removals(doc, purge)[..n] == listed[..n];
  }

  /** So does a listed path that is not one of the installer's own. */
  lemma StoppedByPath(doc: MarkerDoc, purge: bool, faults: Faults)
    requires var k := ExpectedPrefix(doc.managedFiles);
             k < |doc.managedFiles| && FirstFailure(ListedRemovals(doc.managedFiles, k), faults) == k
    ensures var k := ExpectedPrefix(doc.managedFiles);
            && Performed(Removals(doc, purge), faults) == Performed(ListedRemovals(doc.managedFiles, k), faults)
            && RemovalOutcome(doc, purge, faults) == Refused(UnexpectedPath(doc.managedFiles[k]))
  {
    assert Removals(doc, purge) == ListedRemovals(doc.managedFiles, ExpectedPrefix(doc.managedFiles));
  }

  /** Otherwise every listed file is removed before the rest. */
  lemma AllListedRemoved(doc: MarkerDoc, purge: bool, faults: Faults)
    requires var k := ExpectedPrefix(doc.managedFiles);
             k == |doc.managedFiles| && FirstFailure(ListedRemovals(doc.managedFiles, k), faults) == k
    ensures var k, listed := |doc.managedFiles|, ListedRemovals(doc.managedFiles, |doc.managedFiles|);
            && k <= FirstFailure(Removals(doc, purge), faults)
            && listed[..k] == listed == Removals(doc, purge)[..k]
  {
    ListedIsPrefix(doc, purge);
    var listed := ListedRemovals(doc.managedFiles, |doc.managedFiles|);
    assert forall i :: 0 <= i < |listed| ==> Removals(doc, purge)[i] == listed[i];
  }
}
