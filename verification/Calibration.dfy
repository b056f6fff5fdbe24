/** The calibration store as interleaved steps of any number of threads under its two locks.

    `Calibrate` holds the calibration lock throughout, and the state lock, as a writer, around the one
    assignment that publishes its result. `LastCalibration`, and `Plan` through it, reads under the state
    lock, as a reader: it checks the stored pointer for nil and then looks at it again to follow it. A
    waiting writer keeps new readers out. */
module Calibration {
  import opened Wrappers

  type Thread = nat

  datatype Measurement = Measurement(payload: string)

  /** Where a thread is: in no call, at a point of `Calibrate`, or at a point of a read. */
  datatype Place =
    | Idle
    | Calibrating
    | Measured(result: Measurement)
    | WaitingToWrite(result: Measurement)
    | Writing(result: Measurement)
    | Wrote(result: Measurement)
    | Unlocked(result: Measurement)
    | Reading
    | Checked(version: nat)
    | HasRead(seen: Option<Measurement>)

  /** One completed read: who, how many publications there were when it checked for nil, and what it then saw. */
  datatype ReadRecord = ReadRecord(thread: Thread, version: nat, seen: Option<Measurement>)

  /** The manager's fields, the locks, the place of each thread, and a log of what has happened. */
  datatype State = State(
    last: Option<Measurement>,
    calibrationLock: Option<Thread>, writer: Option<Thread>, waiting: set<Thread>, readers: set<Thread>,
    at: seq<Place>,
    acquisitions: seq<Thread>, publishers: seq<Thread>, published: seq<Measurement>, readLog: seq<ReadRecord>)

  datatype Step =
    | LockCalibration | Measure(result: Measurement) | AskToWrite | LockState | Publish | UnlockState
    | UnlockCalibration
    | RLock | CheckNil | Dereference | RUnlock

  predicate Enabled(s: State, t: Thread, step: Step) {
    t < |s.at| &&
    match step
    case LockCalibration => s.at[t] == Idle && s.calibrationLock == None
    case Measure(_) => s.at[t] == Calibrating
    case AskToWrite => s.at[t].Measured?
    case LockState => s.at[t].WaitingToWrite? && s.writer == None && s.readers == {}
    case Publish => s.at[t].Writing?
    case UnlockState => s.at[t].Wrote?
    case UnlockCalibration => s.at[t].Unlocked?
    case RLock => s.at[t] == Idle && s.writer == None && s.waiting == {}
    case CheckNil => s.at[t] == Reading
    case Dereference => s.at[t].Checked?
    case RUnlock => s.at[t].HasRead?
  }

  function Next(s: State, t: Thread, step: Step): State
    requires Enabled(s, t, step)
  {
    match step
    case LockCalibration => s.(calibrationLock := Some(t), at := s.at[t := Calibrating],
                               acquisitions := s.acquisitions + [t])
    case Measure(r) => s.(at := s.at[t := Measured(r)])
    case AskToWrite => s.(waiting := s.waiting + {t}, at := s.at[t := WaitingToWrite(s.at[t].result)])
    case LockState => s.(waiting := s.waiting - {t}, writer := Some(t), at := s.at[t := Writing(s.at[t].result)])
    case Publish => s.(last := Some(s.at[t].result), at := s.at[t := Wrote(s.at[t].result)],
                       publishers := s.publishers + [t], published := s.published + [s.at[t].result])
    case UnlockState => s.(writer := None, at := s.at[t := Unlocked(s.at[t].result)])
    case UnlockCalibration => s.(calibrationLock := None, at := s.at[t := Idle])
    case RLock => s.(readers := s.readers + {t}, at := s.at[t := Reading])
    case CheckNil =>
      if s.last == None then
        s.(at := s.at[t := HasRead(None)], readLog := s.readLog + [ReadRecord(t, |s.published|, None)])
      else s.(at := s.at[t := Checked(|s.published|)])
    case Dereference =>
      s.(at := s.at[t := HasRead(s.last)], readLog := s.readLog + [ReadRecord(t, s.at[t].version, s.last)])
    case RUnlock => s.(readers := s.readers - {t}, at := s.at[t := Idle])
  }

  predicate Initial(s: State) {
    && s.last == None && s.calibrationLock == None && s.writer == None && s.waiting == {} && s.readers == {}
    && (forall t :: 0 <= t < |s.at| ==> s.at[t] == Idle)
    && s.acquisitions == [] && s.publishers == [] && s.published == [] && s.readLog == []
  }

  /** A schedule: which thread takes which step, in order. */
  datatype Turn = Turn(thread: Thread, step: Step)

  predicate Runs(s: State, turns: seq<Turn>)
    decreases |turns|
  {
    turns == []
    || (Enabled(s, turns[0].thread, turns[0].step) && Runs(Next(s, turns[0].thread, turns[0].step), turns[1..]))
  }

  function After(s: State, turns: seq<Turn>): State
    requires Runs(s, turns)
    decreases |turns|
  {
    if turns == [] then s else After(Next(s, turns[0].thread, turns[0].step), turns[1..])
  }

  // ---------------------------------------------------------------- the invariant

  predicate InCalibrate(p: Place) { !p.Idle? && !HoldsRead(p) }
  predicate HoldsWrite(p: Place) { p.Writing? || p.Wrote? }
  predicate HoldsRead(p: Place) { p.Reading? || p.Checked? || p.HasRead? }
  predicate HasPublished(p: Place) { p.Wrote? || p.Unlocked? }

  /** The two exclusive locks are held by the threads whose places say so. */
  ghost predicate OwnersAgree(s: State) {
    && (forall t :: 0 <= t < |s.at| ==> (InCalibrate(s.at[t]) <==> s.calibrationLock == Some(t)))
    && (forall t :: 0 <= t < |s.at| ==> (HoldsWrite(s.at[t]) <==> s.writer == Some(t)))
    && (s.calibrationLock.Some? ==> s.calibrationLock.value < |s.at|)
    && (s.writer.Some? ==> s.writer.value < |s.at| && s.readers == {})
  }

  /** So are the places in the queue of writers and among the readers. */
  ghost predicate QueuesAgree(s: State) {
    && (forall t :: 0 <= t < |s.at| ==> (s.at[t].WaitingToWrite? <==> t in s.waiting))
    && (forall t :: 0 <= t < |s.at| ==> (HoldsRead(s.at[t]) <==> t in s.readers))
    && (forall t :: t in s.waiting ==> t < |s.at|)
    && (forall t :: t in s.readers ==> t < |s.at|)
  }

  ghost predicate LocksAgree(s: State) { OwnersAgree(s) && QueuesAgree(s) }

  function Newest(published: seq<Measurement>): Option<Measurement> {
    if published == [] then None else Some(published[|published| - 1])
  }

  /** Publications happen in the order in which the calibration lock was acquired. */
  ghost predicate PublishedInOrder(s: State) {
    && |s.publishers| == |s.published|
    && (match s.calibrationLock
        case None => s.acquisitions == s.publishers
        case Some(t) =>
          t < |s.at| &&
          if HasPublished(s.at[t]) then
            s.acquisitions == s.publishers && s.publishers != [] && s.publishers[|s.publishers| - 1] == t
            && Newest(s.published) == Some(s.at[t].result)
          else s.acquisitions == s.publishers + [t])
  }

  /** Every read saw the newest result of its time. */
  ghost predicate ReadsInOrder(s: State) {
    && (forall i :: 0 <= i < |s.readLog| ==>
          && s.readLog[i].version <= |s.published|
          && s.readLog[i].seen == Newest(s.published[..s.readLog[i].version]))
    && (forall i, j :: 0 <= i < j < |s.readLog| ==> s.readLog[i].version <= s.readLog[j].version)
  }

  /** Nothing has been published since a reader checked for nil, and there is something to follow. */
  ghost predicate ChecksHold(s: State) {
    forall t :: 0 <= t < |s.at| && s.at[t].Checked? ==> s.at[t].version == |s.published| && s.last != None
  }

  ghost predicate Inv(s: State) {
    LocksAgree(s) && s.last == Newest(s.published) && PublishedInOrder(s) && ReadsInOrder(s) && ChecksHold(s)
  }

  lemma StepKeepsOwners(s: State, t: Thread, step: Step)
    requires LocksAgree(s) && Enabled(s, t, step)
    ensures OwnersAgree(Next(s, t, step))
  {
  }

  lemma StepKeepsQueues(s: State, t: Thread, step: Step)
    requires QueuesAgree(s) && Enabled(s, t, step)
    ensures QueuesAgree(Next(s, t, step))
  {
  }

  lemma StepKeepsLocks(s: State, t: Thread, step: Step)
    requires LocksAgree(s) && Enabled(s, t, step)
    ensures LocksAgree(Next(s, t, step))
  {
    StepKeepsOwners(s, t, step);
    StepKeepsQueues(s, t, step);
  }

  lemma StepKeepsOrder(s: State, t: Thread, step: Step)
    requires Inv(s) && Enabled(s, t, step)
    ensures Next(s, t, step).last == Newest(Next(s, t, step).published) && PublishedInOrder(Next(s, t, step))
  {
  }

  lemma StepKeepsReads(s: State, t: Thread, step: Step)
    requires Inv(s) && Enabled(s, t, step)
    ensures ReadsInOrder(Next(s, t, step))
  {
    var n := Next(s, t, step);
    if step == Publish {
      forall i | 0 <= i < |n.readLog| ensures n.readLog[i].seen == Newest(n.published[..n.readLog[i].version]) {
        assert n.published[..n.readLog[i].version] == s.published[..n.readLog[i].version];
      }
    } else if step == CheckNil || step == Dereference {
      assert s.published[..|s.published|] == s.published;
    }
  }

  /** No publication comes between the two looks of a reader: a writer waits until no reader is left. */
  lemma StepKeepsChecks(s: State, t: Thread, step: Step)
    requires Inv(s) && Enabled(s, t, step)
    ensures ChecksHold(Next(s, t, step))
  {
  }

  lemma StepKeepsInvariant(s: State, t: Thread, step: Step)
    requires Inv(s) && Enabled(s, t, step)
    ensures Inv(Next(s, t, step))
  {
    StepKeepsLocks(s, t, step);
    StepKeepsOrder(s, t, step);
    StepKeepsReads(s, t, step);
    StepKeepsChecks(s, t, step);
  }

  /** Whatever the schedule, the invariant holds at the end of it. */
  lemma {:induction false} EveryRunKeepsInvariant(s: State, turns: seq<Turn>)
    requires Inv(s) && Runs(s, turns)
    ensures Inv(After(s, turns))
    decreases |turns|
  {
    if turns != [] {
      var t, step := turns[0].thread, turns[0].step;
      StepKeepsInvariant(s, t, step);
      EveryRunKeepsInvariant(Next(s, t, step), turns[1..]);
    }
  }

  // ---------------------------------------------------------------- what follows

  /** Over every run of any threads: the stored result is the most recently published one, publications
      follow the order of acquiring the calibration lock, and reads never go back in time. */
  lemma StoreIsLinear(s: State, turns: seq<Turn>)
    requires Initial(s) && Runs(s, turns)
    ensures var e := After(s, turns);
            && e.last == Newest(e.published)
            && e.publishers <= e.acquisitions && |e.acquisitions| <= |e.publishers| + 1
            && (forall i, j :: 0 <= i < j < |e.readLog| ==> e.readLog[i].version <= e.readLog[j].version)
            && (forall i :: 0 <= i < |e.readLog| ==>
                  && e.readLog[i].version <= |e.published|
                  && e.readLog[i].seen == Newest(e.published[..e.readLog[i].version]))
  {
    EveryRunKeepsInvariant(s, turns);
  }

  /** A calibration returns the result it published, and until it lets go of the calibration lock that
      is the stored one. */
  lemma CalibrateReturnsWhatItStored(s: State, turns: seq<Turn>, t: Thread)
    requires Initial(s) && Runs(s, turns)
    ensures var e := After(s, turns);
            t < |e.at| && HasPublished(e.at[t]) ==>
              e.last == Some(e.at[t].result) && e.publishers != [] && e.publishers[|e.publishers| - 1] == t
  {
    EveryRunKeepsInvariant(s, turns);
  }

  // ---------------------------------------------------------------- what is published

  /** Which thread measured what, in the order of the turns. */
  function Measurements(turns: seq<Turn>): seq<(Thread, Measurement)> {
    if turns == [] then []
    else
      (if turns[0].step.Measure? then [(turns[0].thread, turns[0].step.result)] else []) + Measurements(turns[1..])
  }

  function Publications(s: State): (ps: seq<(Thread, Measurement)>)
    requires |s.publishers| == |s.published|
  {
    seq(|s.published|, i requires 0 <= i < |s.published| => (s.publishers[i], s.published[i]))
  }

  /** A measurement that is not yet published. */
  predicate Holds(p: Place) { p.Measured? || p.WaitingToWrite? || p.Writing? }

  /** Everything measured has been published, but for what the calibrating thread may still hold. */
  ghost predicate AllPublished(s: State, measured: seq<(Thread, Measurement)>) {
    && |s.publishers| == |s.published|
    && match s.calibrationLock
       case Some(t) =>
         && t < |s.at|
         && measured == Publications(s) + if Holds(s.at[t]) then [(t, s.at[t].result)] else []
       case None => measured == Publications(s)
  }

  lemma StepPublishes(s: State, t: Thread, step: Step, measured: seq<(Thread, Measurement)>)
    requires Inv(s) && Enabled(s, t, step) && AllPublished(s, measured)
    ensures AllPublished(Next(s, t, step), measured + if step.Measure? then [(t, step.result)] else [])
  {
    var n := Next(s, t, step);
    if step == Publish {
      assert Publications(n) == Publications(s) + [(t, s.at[t].result)];
    } else {
      assert Publications(n) == Publications(s);
    }
    assert measured + [] == measured;
  }

  lemma Regroup(a: seq<(Thread, Measurement)>, b: seq<(Thread, Measurement)>, c: seq<(Thread, Measurement)>)
    ensures (a + b) + c == a + (b + c)
  {
  }

  lemma {:induction false} RunPublishes(s: State, turns: seq<Turn>, measured: seq<(Thread, Measurement)>)
    requires Inv(s) && Runs(s, turns) && AllPublished(s, measured)
    ensures AllPublished(After(s, turns), measured + Measurements(turns))
    decreases |turns|
  {
    if turns == [] {
      assert measured + [] == measured;
    } else {
      var t, step := turns[0].thread, turns[0].step;
      StepKeepsInvariant(s, t, step);
      StepPublishes(s, t, step, measured);
      var more, rest := if step.Measure? then [(t, step.result)] else [], Measurements(turns[1..]);
      RunPublishes(Next(s, t, step), turns[1..], measured + more);
      Regroup(measured, more, rest);
    }
  }

  lemma PublishedSoFar(s: State, measured: seq<(Thread, Measurement)>)
    requires AllPublished(s, measured)
    ensures |s.publishers| == |s.published| <= |measured| <= |s.published| + 1
    ensures forall i :: 0 <= i < |s.published| ==> (s.publishers[i], s.published[i]) == measured[i]
    ensures (forall t :: 0 <= t < |s.at| ==> !Holds(s.at[t])) ==> |measured| == |s.published|
  {
    assert forall i :: 0 <= i < |s.published| ==> Publications(s)[i] == measured[i];
  }

  /** Over every run, what is published are the results measured, by the threads that measured them, in the order
      of their measuring; at most the last one is not published yet. */
  lemma PublishedIsWhatWasMeasured(s: State, turns: seq<Turn>)
    requires Initial(s) && Runs(s, turns)
    ensures var e, measured := After(s, turns), Measurements(turns);
            && |e.publishers| == |e.published| <= |measured| <= |e.published| + 1
            && (forall i :: 0 <= i < |e.published| ==> (e.publishers[i], e.published[i]) == measured[i])
            && ((forall t :: 0 <= t < |e.at| ==> !Holds(e.at[t])) ==> |measured| == |e.published|)
  {
    assert Publications(s) == [];
    RunPublishes(s, turns, []);
    assert [] + Measurements(turns) == Measurements(turns);
    PublishedSoFar(After(s, turns), Measurements(turns));
  }

  /** What a reader follows is what it checked: not nil, and the newest result at the time of the check. */
  lemma DereferenceSeesWhatWasChecked(s: State, turns: seq<Turn>, t: Thread)
    requires Initial(s) && Runs(s, turns)
    ensures var e := After(s, turns);
            t < |e.at| && e.at[t].Checked? ==>
              && e.last != None
              && e.at[t].version <= |e.published| && e.last == Newest(e.published[..e.at[t].version])
  {
    EveryRunKeepsInvariant(s, turns);
    var e := After(s, turns);
    assert e.published[..|e.published|] == e.published;
  }

  /** The state lock excludes: one writer, and no reader beside it. */
  lemma WriterExcludesAll(s: State, turns: seq<Turn>, t: Thread, u: Thread)
    requires Initial(s) && Runs(s, turns)
    ensures var e := After(s, turns);
            t < |e.at| && u < |e.at| && HoldsWrite(e.at[t]) ==> !HoldsRead(e.at[u]) && (HoldsWrite(e.at[u]) ==> t == u)
  {
    EveryRunKeepsInvariant(s, turns);
  }

  /** At most one thread measures at a time. */
  lemma CalibrationsExcludeEachOther(s: State, turns: seq<Turn>, t: Thread, u: Thread)
    requires Initial(s) && Runs(s, turns)
    ensures var e := After(s, turns);
            t < |e.at| && u < |e.at| && InCalibrate(e.at[t]) && InCalibrate(e.at[u]) ==> t == u
  {
    EveryRunKeepsInvariant(s, turns);
  }

  /** The step a thread inside a call takes next; measuring yields any result. */
  function NextStep(p: Place): Step {
    match p
    case Idle => RLock
    case Calibrating => Measure(Measurement(""))
    case Measured(_) => AskToWrite
    case WaitingToWrite(_) => LockState
    case Writing(_) => Publish
    case Wrote(_) => UnlockState
    case Unlocked(_) => UnlockCalibration
    case Reading => CheckNil
    case Checked(_) => Dereference
    case HasRead(_) => RUnlock
  }

  /** A thread that holds the state lock never waits, and only the holder of the calibration lock waits
      for it: whenever some thread is inside a call, some thread inside a call can take its next step. */
  lemma NeverStuck(s: State, inside: Thread) returns (t: Thread)
    requires Inv(s) && inside < |s.at| && !s.at[inside].Idle?
    ensures t < |s.at| && !s.at[t].Idle? && Enabled(s, t, NextStep(s.at[t]))
  {
    t := inside;
    if s.at[inside].WaitingToWrite? && s.readers != {} {
      t :| t in s.readers;
    }
  }

  lemma NoDeadlock(s: State, turns: seq<Turn>, inside: Thread)
    requires Initial(s) && Runs(s, turns)
    requires var e := After(s, turns); inside < |e.at| && !e.at[inside].Idle?
    ensures var e := After(s, turns);
            exists t :: 0 <= t < |e.at| && !e.at[t].Idle? && Enabled(e, t, NextStep(e.at[t]))
  {
    EveryRunKeepsInvariant(s, turns);
    var t := NeverStuck(After(s, turns), inside);
  }

  // ---------------------------------------------------------------- every call can finish

  /** Steps left to the end of a call. */
  function Left(p: Place): nat {
    match p
    case Idle => 0
    case Calibrating => 7
    case Measured(_) => 6
    case WaitingToWrite(_) => 5
    case Writing(_) => 4
    case Wrote(_) => 3
    case Unlocked(_) => 2
    case Reading => 3
    case Checked(_) => 2
    case HasRead(_) => 1
  }

  function Work(at: seq<Place>): nat {
    if at == [] then 0 else Left(at[0]) + Work(at[1..])
  }

  lemma {:induction false} WorkAfter(at: seq<Place>, t: nat, p: Place)
    requires t < |at|
    ensures Work(at[t := p]) == Work(at) - Left(at[t]) + Left(p)
    ensures Work(at) >= Left(at[t])
  {
    if t == 0 {
      assert at[0 := p][1..] == at[1..];
    } else {
      assert at[t := p][1..] == at[1..][t - 1 := p];
      WorkAfter(at[1..], t - 1, p);
    }
  }

  predicate StartsCall(step: Step) { step == LockCalibration || step == RLock }

  lemma StepDoesWork(s: State, t: Thread, step: Step)
    requires Enabled(s, t, step) && !StartsCall(step)
    ensures Work(Next(s, t, step).at) < Work(s.at)
  {
    WorkAfter(s.at, t, Next(s, t, step).at[t]);
  }

  /** Without new calls a run is no longer than the work that was left. */
  lemma {:induction false} RunsWithoutNewCallsEnd(s: State, turns: seq<Turn>)
    requires Runs(s, turns)
    requires forall i :: 0 <= i < |turns| ==> !StartsCall(turns[i].step)
    ensures |turns| <= Work(s.at)
    decreases |turns|
  {
    if turns != [] {
      StepDoesWork(s, turns[0].thread, turns[0].step);
      RunsWithoutNewCallsEnd(Next(s, turns[0].thread, turns[0].step), turns[1..]);
    }
  }

  /** From every reachable state all calls in progress can run to their end. */
  lemma {:induction false} AllCallsCanFinish(s: State) returns (turns: seq<Turn>)
    requires Inv(s)
    ensures Runs(s, turns)
    ensures forall t :: 0 <= t < |s.at| && t < |After(s, turns).at| ==> After(s, turns).at[t].Idle?
    ensures |After(s, turns).at| == |s.at|
    decreases Work(s.at)
  {
    if inside :| 0 <= inside < |s.at| && !s.at[inside].Idle? {
      var t := NeverStuck(s, inside);
      var step := NextStep(s.at[t]);
      StepKeepsInvariant(s, t, step);
      StepDoesWork(s, t, step);
      var rest := AllCallsCanFinish(Next(s, t, step));
      turns := [Turn(t, step)] + rest;
      assert turns[1..] == rest;
    } else {
      turns := [];
    }
  }
}
