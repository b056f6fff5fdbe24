/** The installer on values: the four managed files, the steps that may fail, and what each operation
    does to the files, as an ordered trace of writes and removals. */
module InstallSpec {
  import opened Wrappers

  // ---------------------------------------------------------------- files

  datatype Path = Binary | Config | Unit | Marker

  /** A path listed in a marker: one of the layout's own, or any other text. */
  datatype ListedPath = Known(path: Path) | Other(text: string)

  datatype MarkerDoc = MarkerDoc(version: string, managedFiles: seq<ListedPath>, configOwned: bool, installedAt: string)

  /** File contents: text that does not decode as a marker, or some spelling of one that does. */
  datatype Content = Text(bytes: string) | Json(spelling: string, doc: MarkerDoc)

  /** `perm` are the nine permission bits; `special` says whether setuid, setgid or sticky is set. */
  datatype File = File(data: Content, perm: nat, special: bool)

  type Files = map<Path, File>

  /** A rename over the target, or an unlink: each takes effect at once or not at all. */
  datatype Op = Write(path: Path, file: File) | Remove(path: Path)

  function Apply(fs: Files, op: Op): Files {
    match op
    case Write(p, f) => fs[p := f]
    case Remove(p) => fs - {p}
  }

  function ApplyAll(fs: Files, ops: seq<Op>): Files {
    if ops == [] then fs else Apply(ApplyAll(fs, ops[..|ops| - 1]), ops[|ops| - 1])
  }

  lemma {:induction false} ApplyAllConcat(fs: Files, first: seq<Op>, second: seq<Op>)
    ensures ApplyAll(fs, first + second) == ApplyAll(ApplyAll(fs, first), second)
  {
    if second == [] {
      assert first + second == first;
    } else {
      ApplyAllConcat(fs, first, second[..|second| - 1]);
      assert (first + second)[..|first + second| - 1] == first + second[..|second| - 1];
    }
  }

  // ---------------------------------------------------------------- ownership

  datatype Ownership = Managed | External | Disabled

  function OwnershipOf(fs: Files): Ownership {
    if Marker in fs then Managed else if Binary in fs || Unit in fs then External else Disabled
  }

  // ---------------------------------------------------------------- steps that may fail

  /** Every call whose outcome the installer does not decide. */
  datatype Step =
    | RootCheck | SourcePath | SourceStat | SourceRegular
    | StatFile(path: Path) | SystemdProbe | OllamaProbe
    | Capture(path: Path) | ReadMarker
    | EnsureIdentity | MakeBinaryDir | MakeConfigDir
    | WriteFile(path: Path) | EncodeMarker | ReloadSystemd | EnableService | WaitReady
    | Restore(path: Path)
    | RemoveListed(index: nat) | RemoveConfig | RemoveMarker

  /** The steps that fail during one call. Which ones is up to the environment. */
  type Faults = set<Step>

  /** `fileExists`: a stat that fails counts as an absent file. */
  predicate Seen(fs: Files, faults: Faults, p: Path) { p in fs && StatFile(p) !in faults }

  function SeenOwnership(fs: Files, faults: Faults): Ownership {
    if Seen(fs, faults, Marker) then Managed
    else if Seen(fs, faults, Binary) || Seen(fs, faults, Unit) then External
    else Disabled
  }

  /** One step of an operation, with the file operation it performs when it does not fail. */
  datatype Action = Action(step: Step, effect: Option<Op>)

  /** Index of the first action that fails, or the number of actions. */
  function FirstFailure(actions: seq<Action>, faults: Faults): (n: nat)
    ensures n <= |actions|
    ensures forall i :: 0 <= i < n ==> actions[i].step !in faults
    ensures n < |actions| ==> actions[n].step in faults
  {
    if actions == [] || actions[0].step in faults then 0 else 1 + FirstFailure(actions[1..], faults)
  }

  function Effects(actions: seq<Action>): seq<Op> {
    if actions == [] then []
    else
      var init, last := Effects(actions[..|actions| - 1]), actions[|actions| - 1].effect;
      if last.Some? then init + [last.value] else init
  }

  /** The file operations performed before the first failure. */
  function Performed(actions: seq<Action>, faults: Faults): seq<Op> {
    Effects(actions[..FirstFailure(actions, faults)])
  }

  // ---------------------------------------------------------------- install

  /** What the caller and the program bring along: the new binary, the default environment and the unit
      text embedded in the program, its version, the time, and whether to start the service. */
  datatype Options = Options(source: Content, environment: Content, unit: Content, startService: bool, version: string,
                             now: string)

  datatype Refusal =
    | StepFailed(step: Step) | ExternallyOwned | MarkerUnreadable | NotManaged | UnexpectedPath(listed: ListedPath)

  datatype Outcome =
    | Success
    | Refused(refusal: Refusal)
    | RolledBack(cause: Step)
    | RollbackFailed(cause: Step, restore: Step)

  /** The order in which files are captured and restored. */
  const MANAGED_PATHS: seq<Path> := [Binary, Config, Unit, Marker]

  function FirstCaptureError(paths: seq<Path>, faults: Faults): Option<Step> {
    if paths == [] then None
    else if Capture(paths[0]) in faults then Some(Capture(paths[0]))
    else FirstCaptureError(paths[1..], faults)
  }

  /** The checks made before anything is written. */
  function Precheck(fs: Files, faults: Faults): Option<Refusal> {
    if RootCheck in faults then Some(StepFailed(RootCheck))
    else if SourcePath in faults then Some(StepFailed(SourcePath))
    else if SourceStat in faults then Some(StepFailed(SourceStat))
    else if SourceRegular in faults then Some(StepFailed(SourceRegular))
    else if SystemdProbe in faults then Some(StepFailed(SystemdProbe))
    else if OllamaProbe in faults then Some(StepFailed(OllamaProbe))
    else if SeenOwnership(fs, faults) == External then Some(ExternallyOwned)
    else if FirstCaptureError(MANAGED_PATHS, faults).Some? then
      Some(StepFailed(FirstCaptureError(MANAGED_PATHS, faults).value))
    else if Marker in fs && ReadMarker in faults then Some(StepFailed(ReadMarker))
    else if Marker in fs && !fs[Marker].data.Json? then Some(MarkerUnreadable)
    else None
  }

  /** Whether the next marker will claim the configuration file. */
  function ClaimsConfig(fs: Files): bool {
    if Marker in fs then fs[Marker].data.Json? && fs[Marker].data.doc.configOwned else Config !in fs
  }

  function NewMarker(fs: Files, opts: Options): MarkerDoc {
    MarkerDoc(opts.version, [Known(Binary), Known(Unit)], ClaimsConfig(fs), opts.now)
  }

  function BinaryFile(opts: Options): File { File(opts.source, 0x1ED, false) }   // 0755
  function ConfigFile(opts: Options): File { File(opts.environment, 0x1A0, false) }   // 0640
  function UnitFile(opts: Options): File { File(opts.unit, 0x1A4, false) }        // 0644
  function MarkerFile(fs: Files, opts: Options): File {   // 0600
    File(Json("indented", NewMarker(fs, opts)), 0x180, false)
  }

  function WriteAction(p: Path, f: File): Action { Action(WriteFile(p), Some(Write(p, f))) }

  /** The steps of an installation, in order. */
  function InstallActions(fs: Files, opts: Options): seq<Action> {
    [Action(EnsureIdentity, None), Action(MakeBinaryDir, None), Action(MakeConfigDir, None),
     WriteAction(Binary, BinaryFile(opts))]
    + (if Config !in fs then [WriteAction(Config, ConfigFile(opts))] else [])
    + [WriteAction(Unit, UnitFile(opts)), Action(EncodeMarker, None), WriteAction(Marker, MarkerFile(fs, opts)),
       Action(ReloadSystemd, None)]
    + (if opts.startService then [Action(EnableService, None), Action(WaitReady, None)] else [])
  }

  /** A captured file as the rollback writes it back: only the permission bits were captured. */
  function Recaptured(f: File): File { f.(special := false) }

  function RestoreAction(was: Files, p: Path): Action {
    Action(Restore(p), Some(if p in was then Write(p, Recaptured(was[p])) else Remove(p)))
  }

  function RestoreActions(was: Files): seq<Action> {
    [RestoreAction(was, Binary), RestoreAction(was, Config), RestoreAction(was, Unit), RestoreAction(was, Marker)]
  }

  /** Every file operation of one installation, rollback included, in order. */
  function InstallTrace(fs: Files, opts: Options, faults: Faults): seq<Op> {
    if Precheck(fs, faults).Some? then []
    else
      var actions := InstallActions(fs, opts);
      Performed(actions, faults)
      + if FirstFailure(actions, faults) == |actions| then [] else Performed(RestoreActions(fs), faults)
  }

  function InstallOutcome(fs: Files, opts: Options, faults: Faults): Outcome {
    if Precheck(fs, faults).Some? then Refused(Precheck(fs, faults).value)
    else
      var actions := InstallActions(fs, opts);
      var n := FirstFailure(actions, faults);
      if n == |actions| then Success
      else
        var r := FirstFailure(RestoreActions(fs), faults);
        if r == 4 then RolledBack(actions[n].step) else RollbackFailed(actions[n].step, RestoreActions(fs)[r].step)
  }

  // ---------------------------------------------------------------- repair

  /** Repair looks at ownership once itself, then runs an installation that looks again. */
  function RepairTrace(fs: Files, opts: Options, first: Faults, second: Faults): seq<Op> {
    if SeenOwnership(fs, first) != Managed then [] else InstallTrace(fs, opts, second)
  }

  function RepairOutcome(fs: Files, opts: Options, first: Faults, second: Faults): Outcome {
    if SeenOwnership(fs, first) != Managed then Refused(NotManaged) else InstallOutcome(fs, opts, second)
  }

  // ---------------------------------------------------------------- uninstall

  predicate Expected(l: ListedPath) { l == Known(Binary) || l == Known(Unit) }

  /** Number of listed paths before the first one the uninstaller refuses to remove. */
  function ExpectedPrefix(listed: seq<ListedPath>): (n: nat)
    ensures n <= |listed|
    ensures forall i :: 0 <= i < n ==> Expected(listed[i])
    ensures n < |listed| ==> !Expected(listed[n])
  {
    if listed == [] || !Expected(listed[0]) then 0 else 1 + ExpectedPrefix(listed[1..])
  }

  function ListedRemovals(listed: seq<ListedPath>, n: nat): (actions: seq<Action>)
    requires n <= ExpectedPrefix(listed)
    ensures |actions| == n
    ensures forall i :: 0 <= i < n ==> actions[i] == Action(RemoveListed(i), Some(Remove(listed[i].path)))
  {
    if n == 0 then []
    else ListedRemovals(listed, n - 1) + [Action(RemoveListed(n - 1), Some(Remove(listed[n - 1].path)))]
  }

  /** The removals a marker asks for, the marker itself last. */
  function Removals(doc: MarkerDoc, purge: bool): seq<Action> {
    var n := ExpectedPrefix(doc.managedFiles);
    ListedRemovals(doc.managedFiles, n)
    + if n < |doc.managedFiles| then []
      else (if purge && doc.configOwned then [Action(RemoveConfig, Some(Remove(Config)))] else [])
           + [Action(RemoveMarker, Some(Remove(Marker)))]
  }

  function UninstallRefusal(fs: Files, faults: Faults): Option<Refusal> {
    if RootCheck in faults then Some(StepFailed(RootCheck))
    else if SeenOwnership(fs, faults) == External then Some(ExternallyOwned)
    else if SeenOwnership(fs, faults) == Managed && ReadMarker in faults then Some(StepFailed(ReadMarker))
    else if SeenOwnership(fs, faults) == Managed && !fs[Marker].data.Json? then Some(MarkerUnreadable)
    else None
  }

  /** Whether the uninstaller gets as far as removing files. */
  predicate Removes(fs: Files, faults: Faults) {
    UninstallRefusal(fs, faults) == None && SeenOwnership(fs, faults) == Managed
  }

  function UninstallTrace(fs: Files, purge: bool, faults: Faults): seq<Op> {
    if Removes(fs, faults) then Performed(Removals(fs[Marker].data.doc, purge), faults) else []
  }

  function UninstallOutcome(fs: Files, purge: bool, faults: Faults): Outcome {
    if UninstallRefusal(fs, faults).Some? then Refused(UninstallRefusal(fs, faults).value)
    else if SeenOwnership(fs, faults) == Disabled then Success
    else RemovalOutcome(fs[Marker].data.doc, purge, faults)
  }

  function RemovalOutcome(doc: MarkerDoc, purge: bool, faults: Faults): Outcome {
    var actions := Removals(doc, purge);
    var n, listed := FirstFailure(actions, faults), ExpectedPrefix(doc.managedFiles);
    if n < |actions| then Refused(StepFailed(actions[n].step))
    else if listed < |doc.managedFiles| then Refused(UnexpectedPath(doc.managedFiles[listed]))
    else Success
  }
}
