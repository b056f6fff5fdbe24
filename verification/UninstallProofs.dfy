/** What uninstalling removes, and why it can be stopped and run again. */
module UninstallProofs {
  import opened Wrappers
  import opened InstallSpec
  import opened InstallProofs

  function PathsOf(ops: seq<Op>): set<Path> { set op | op in ops :: op.path }

  lemma {:induction false} RemovingMany(fs: Files, ops: seq<Op>)
    requires forall op :: op in ops ==> op.Remove?
    ensures ApplyAll(fs, ops) == fs - PathsOf(ops)
  {
    if ops != [] {
      var init, last := ops[..|ops| - 1], ops[|ops| - 1];
      RemovingMany(fs, init);
      assert ops == init + [last] && last in ops;
      assert PathsOf(ops) == PathsOf(init) + {last.path};
      assert (fs - PathsOf(init)) - {last.path} == fs - (PathsOf(init) + {last.path});
    }
  }

  predicate ClaimingMarker(fs: Files) {
    Marker in fs && fs[Marker].data.Json? && fs[Marker].data.doc.configOwned
  }

  /** Every removal of an uninstall is of the binary, the unit, the marker, or an owned configuration being purged. */
  lemma RemovalsAreManaged(doc: MarkerDoc, purge: bool, i: nat)
    requires i < |Removals(doc, purge)|
    ensures var e := Removals(doc, purge)[i].effect;
            e.Some? && e.value.Remove?
            && (e.value.path == Config ==> purge && doc.configOwned)
            && (e.value.path == Marker ==> i == |Removals(doc, purge)| - 1)
  {
  }

  lemma {:induction false} EffectsOfAll(actions: seq<Action>)
    requires forall i :: 0 <= i < |actions| ==> actions[i].effect.Some?
    ensures |Effects(actions)| == |actions|
    ensures forall i :: 0 <= i < |actions| ==> Effects(actions)[i] == actions[i].effect.value
  {
    if actions != [] {
      EffectsOfAll(actions[..|actions| - 1]);
    }
  }

  /** The operations of one uninstall are a prefix of the removals its marker asks for, in order. */
  lemma TraceIsPrefix(fs: Files, purge: bool, faults: Faults)
    requires Removes(fs, faults)
    ensures var all := Removals(fs[Marker].data.doc, purge);
            var n := FirstFailure(all, faults);
            && |UninstallTrace(fs, purge, faults)| == n
            && forall i :: 0 <= i < n ==> Some(UninstallTrace(fs, purge, faults)[i]) == all[i].effect
  {
    var all := Removals(fs[Marker].data.doc, purge);
    forall i | 0 <= i < |all| ensures all[i].effect.Some? { RemovalsAreManaged(fs[Marker].data.doc, purge, i); }
    EffectsOfAll(all[..FirstFailure(all, faults)]);
  }

  lemma TraceRemoves(fs: Files, purge: bool, faults: Faults)
    ensures var trace := UninstallTrace(fs, purge, faults);
            && (forall op :: op in trace ==> op.Remove?)
            && (Config in PathsOf(trace) ==> purge && ClaimingMarker(fs))
            && forall i :: 0 <= i < |trace| && trace[i].path == Marker ==>
                 i == |trace| - 1 && trace == UninstallTrace(fs, purge, {})
  {
    if Removes(fs, faults) {
      var doc, trace := fs[Marker].data.doc, UninstallTrace(fs, purge, faults);
      var all := Removals(doc, purge);
      TraceIsPrefix(fs, purge, faults);
      TraceIsPrefix(fs, purge, {});
      forall i | 0 <= i < |trace|
        ensures trace[i].Remove? && (trace[i].path == Config ==> purge && doc.configOwned)
        ensures trace[i].path == Marker ==> i == |all| - 1
      {
        RemovalsAreManaged(doc, purge, i);
      }
      assert FirstFailure(all, {}) == |all|;
      forall i | 0 <= i < |trace| && trace[i].path == Marker
        ensures i == |trace| - 1 && trace == UninstallTrace(fs, purge, {})
      {
        assert |trace| == |all|;
        forall k | 0 <= k < |all| ensures trace[k] == UninstallTrace(fs, purge, {})[k] {
          assert Some(trace[k]) == all[k].effect;
        }
      }
    }
  }

  /** Whatever the marker holds and whatever fails, uninstalling removes nothing but the binary, the unit,
      the marker, and the configuration when it is purged and claimed; every other file is unchanged. */
  lemma UninstallRemovesOnlyManagedFiles(fs: Files, purge: bool, faults: Faults)
    ensures var now := ApplyAll(fs, UninstallTrace(fs, purge, faults));
            && (forall p :: p in now ==> p in fs && now[p] == fs[p])
            && (Config in fs && Config !in now ==> purge && ClaimingMarker(fs))
  {
    TraceRemoves(fs, purge, faults);
    RemovingMany(fs, UninstallTrace(fs, purge, faults));
  }

  lemma PrefixIsClean(fs: Files, purge: bool, faults: Faults, k: nat)
    requires Removes(fs, faults) && Removes(fs, {}) && k <= |UninstallTrace(fs, purge, faults)|
    ensures PathsOf(UninstallTrace(fs, purge, faults)[..k]) <= PathsOf(UninstallTrace(fs, purge, {}))
  {
    TraceIsPrefix(fs, purge, faults);
    TraceIsPrefix(fs, purge, {});
    var all := Removals(fs[Marker].data.doc, purge);
    assert FirstFailure(all, {}) == |all|;
    var trace, clean := UninstallTrace(fs, purge, faults), UninstallTrace(fs, purge, {});
    forall i | 0 <= i < k ensures trace[i] == clean[i] { assert Some(trace[i]) == all[i].effect == Some(clean[i]); }
    forall op | op in trace[..k] ensures op in clean {
      var i :| 0 <= i < k && trace[i] == op;
      assert clean[i] == op;
    }
  }

  /** Running again from files that still have their marker, some of the removals being done already. */
  lemma ResumeWithMarker(fs: Files, stopped: Files, purge: bool, gone: set<Path>)
    requires Removes(fs, {}) && Marker in stopped && stopped == fs - gone
    requires gone <= PathsOf(UninstallTrace(fs, purge, {}))
    ensures ApplyAll(stopped, UninstallTrace(stopped, purge, {})) == ApplyAll(fs, UninstallTrace(fs, purge, {}))
  {
    var clean := UninstallTrace(fs, purge, {});
    assert stopped[Marker] == fs[Marker];
    assert UninstallTrace(stopped, purge, {}) == clean;
    TraceRemoves(fs, purge, {});
    RemovingMany(fs, clean);
    RemovingMany(stopped, clean);
    assert (fs - gone) - PathsOf(clean) == fs - PathsOf(clean);
  }

  /** Stop an uninstall anywhere, by a failing step or a crash, and run it again: the files end as after
      one uninterrupted run, because the marker goes last. */
  lemma UninstallIsResumable(fs: Files, purge: bool, faults: Faults, k: nat)
    requires k <= |UninstallTrace(fs, purge, faults)|
    ensures var stopped := ApplyAll(fs, UninstallTrace(fs, purge, faults)[..k]);
            ApplyAll(stopped, UninstallTrace(stopped, purge, {})) == ApplyAll(fs, UninstallTrace(fs, purge, {}))
  {
    var trace, clean := UninstallTrace(fs, purge, faults), UninstallTrace(fs, purge, {});
    var stopped := ApplyAll(fs, trace[..k]);
    TraceRemoves(fs, purge, faults);
    RemovingMany(fs, trace[..k]);
    if k == 0 {
      assert trace[..k] == [];
      assert stopped == fs;
    } else if Marker in PathsOf(trace[..k]) {
      var i :| 0 <= i < k && trace[i].path == Marker;
      assert trace[..k] == clean;
      assert Marker !in stopped;
    } else {
      assert Removes(fs, faults) && Removes(fs, {});
      PrefixIsClean(fs, purge, faults, k);
      ResumeWithMarker(fs, stopped, purge, PathsOf(trace[..k]));
    }
  }

  /** Uninstalling twice is uninstalling once. */
  lemma UninstallIsIdempotent(fs: Files, purge: bool)
    ensures var once := ApplyAll(fs, UninstallTrace(fs, purge, {}));
            ApplyAll(once, UninstallTrace(once, purge, {})) == once
  {
    var trace := UninstallTrace(fs, purge, {});
    UninstallIsResumable(fs, purge, {}, |trace|);
    assert trace[..|trace|] == trace;
  }

  /** The paths of a completed uninstall, one by one. */
  lemma CompletedTrace(fs: Files, purge: bool, faults: Faults)
    requires Removes(fs, faults) && UninstallOutcome(fs, purge, faults) == Success
    ensures var trace, doc := UninstallTrace(fs, purge, faults), fs[Marker].data.doc;
            var n := |doc.managedFiles|;
            && |trace| == |Removals(doc, purge)| == n + (if purge && doc.configOwned then 2 else 1)
            && (forall i :: 0 <= i < n ==> Expected(doc.managedFiles[i]) && trace[i].path == doc.managedFiles[i].path)
            && trace[|trace| - 1].path == Marker
            && (purge && doc.configOwned ==> trace[n].path == Config)
  {
    var trace, doc := UninstallTrace(fs, purge, faults), fs[Marker].data.doc;
    var all := Removals(doc, purge);
    TraceIsPrefix(fs, purge, faults);
    assert ExpectedPrefix(doc.managedFiles) == |doc.managedFiles| && |trace| == |all|;
    forall i | 0 <= i < |trace| ensures Some(trace[i]) == all[i].effect {}
  }

  lemma CompletedPathIsListed(fs: Files, purge: bool, faults: Faults, i: nat)
    requires Removes(fs, faults) && UninstallOutcome(fs, purge, faults) == Success
    requires i < |UninstallTrace(fs, purge, faults)|
    ensures var doc, p := fs[Marker].data.doc, UninstallTrace(fs, purge, faults)[i].path;
            p == Marker || Known(p) in doc.managedFiles || (p == Config && purge && doc.configOwned)
  {
    CompletedTrace(fs, purge, faults);
    var listed := fs[Marker].data.doc.managedFiles;
    if i < |listed| {
      assert listed[i] == Known(listed[i].path);
    }
  }

  lemma CompletedPaths(fs: Files, purge: bool, faults: Faults, p: Path)
    requires Removes(fs, faults) && UninstallOutcome(fs, purge, faults) == Success
    ensures var doc := fs[Marker].data.doc;
            p in PathsOf(UninstallTrace(fs, purge, faults))
            <==> p == Marker || Known(p) in doc.managedFiles || (p == Config && purge && doc.configOwned)
  {
    CompletedTrace(fs, purge, faults);
    var trace, doc := UninstallTrace(fs, purge, faults), fs[Marker].data.doc;
    assert trace[|trace| - 1] in trace;
    assert purge && doc.configOwned ==> trace[|doc.managedFiles|] in trace;
    if Known(p) in doc.managedFiles {
      var i :| 0 <= i < |doc.managedFiles| && doc.managedFiles[i] == Known(p);
      assert trace[i] in trace;
    }
    if p in PathsOf(trace) {
      var i :| 0 <= i < |trace| && trace[i].path == p;
      CompletedPathIsListed(fs, purge, faults, i);
    }
  }

  /** Which files completed removals leave. */
  lemma CompletedPresence(fs: Files, purge: bool, faults: Faults, p: Path)
    requires Removes(fs, faults) && UninstallOutcome(fs, purge, faults) == Success
    ensures var doc := fs[Marker].data.doc;
            p in ApplyAll(fs, UninstallTrace(fs, purge, faults))
            <==> p in fs && p != Marker && Known(p) !in doc.managedFiles && !(p == Config && purge && doc.configOwned)
  {
    TraceRemoves(fs, purge, faults);
    RemovingMany(fs, UninstallTrace(fs, purge, faults));
    CompletedPaths(fs, purge, faults, p);
  }

  lemma CompletedListing(fs: Files, purge: bool, faults: Faults)
    requires Removes(fs, faults) && UninstallOutcome(fs, purge, faults) == Success
    ensures Known(Config) !in fs[Marker].data.doc.managedFiles
  {
    CompletedTrace(fs, purge, faults);
  }

  /** What completed removals leave: no marker, and no file that it listed. */
  lemma CompletedRemovals(fs: Files, purge: bool, faults: Faults)
    requires Removes(fs, faults) && UninstallOutcome(fs, purge, faults) == Success
    ensures var now, doc := ApplyAll(fs, UninstallTrace(fs, purge, faults)), fs[Marker].data.doc;
            && OwnershipOf(now) != Managed
            && (OwnershipOf(now) == Disabled
                <==> (Binary in fs ==> Known(Binary) in doc.managedFiles)
                     && (Unit in fs ==> Known(Unit) in doc.managedFiles))
            && (doc.managedFiles == [Known(Binary), Known(Unit)] ==> OwnershipOf(now) == Disabled)
            && (Config in now <==> Config in fs && !(purge && doc.configOwned))
  {
    var listed := fs[Marker].data.doc.managedFiles;
    CompletedPresence(fs, purge, faults, Binary);
    CompletedPresence(fs, purge, faults, Config);
    CompletedPresence(fs, purge, faults, Unit);
    CompletedPresence(fs, purge, faults, Marker);
    CompletedListing(fs, purge, faults);
    if listed == [Known(Binary), Known(Unit)] {
      assert listed[0] == Known(Binary) && listed[1] == Known(Unit);
    }
  }

  /** A marker that can be read and lists each of binary and unit that is present. */
  predicate ListsPresent(fs: Files) {
    && Marker in fs && fs[Marker].data.Json?
    && (Binary in fs ==> Known(Binary) in fs[Marker].data.doc.managedFiles)
    && (Unit in fs ==> Known(Unit) in fs[Marker].data.doc.managedFiles)
  }

  /** When an uninstall that reports success leaves a Disabled instance: exactly when there was nothing to do,
      or the stat of the marker succeeded and the marker listed what was there. It leaves a Managed instance
      exactly when there was a marker that it did not see. */
  lemma SuccessfulUninstallEndsDisabledExactly(fs: Files, purge: bool, faults: Faults)
    requires UninstallOutcome(fs, purge, faults) == Success
    ensures var now := ApplyAll(fs, UninstallTrace(fs, purge, faults));
            && (OwnershipOf(now) == Disabled
                <==> OwnershipOf(fs) == Disabled || (Seen(fs, faults, Marker) && ListsPresent(fs)))
            && (OwnershipOf(now) == Managed <==> Marker in fs && !Seen(fs, faults, Marker))
            && (!Seen(fs, faults, Marker) ==> now == fs)
  {
    if Removes(fs, faults) {
      CompletedRemovals(fs, purge, faults);
    }
  }

  /** A success that removes nothing: when the stats of the marker and of both files fail, whatever the marker
      holds, and however long they go on failing. */
  lemma UnseenInstanceIsReportedGone(fs: Files, purge: bool, faults: Faults)
    requires OwnershipOf(fs) == Managed && RootCheck !in faults
    requires {StatFile(Marker), StatFile(Binary), StatFile(Unit)} <= faults
    ensures UninstallOutcome(fs, purge, faults) == Success && UninstallTrace(fs, purge, faults) == []
    ensures OwnershipOf(ApplyAll(fs, UninstallTrace(fs, purge, faults))) == Managed
  {
    assert StatFile(Marker) in faults && StatFile(Binary) in faults && StatFile(Unit) in faults;
  }

  /** A clean uninstall after a successful installation takes everything the installation added, and
      leaves a configuration that was there before it. */
  lemma UninstallUndoesInstall(fs: Files, opts: Options, faults: Faults)
    requires OwnershipOf(fs) == Disabled && InstallOutcome(fs, opts, faults) == Success
    ensures var installed := ApplyAll(fs, InstallTrace(fs, opts, faults));
            ApplyAll(installed, UninstallTrace(installed, true, {})) == fs
  {
    SuccessfulInstall(fs, opts, faults);
    var installed := ApplyAll(fs, InstallTrace(fs, opts, faults));
    var doc := installed[Marker].data.doc;
    assert doc == NewMarker(fs, opts) && Removes(installed, {});
    assert ExpectedPrefix(doc.managedFiles) == 2;
    CompletedRemovals(installed, true, {});
    var now := ApplyAll(installed, UninstallTrace(installed, true, {}));
    UninstallRemovesOnlyManagedFiles(installed, true, {});
    forall p: Path ensures (p in now <==> p in fs) && (p in fs ==> now[p] == fs[p]) {
      match p case Binary => case Config => case Unit => case Marker =>
    }
  }
}
