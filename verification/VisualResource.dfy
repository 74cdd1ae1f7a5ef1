/**
 `withVisualResource` and `acquireVisualResource`: a resource is acquired against a deadline,
 used, and cleaned up; one that arrives after the deadline is cleaned up all the same.
 Two pieces of program may clean up, the call itself and the handler it leaves behind for a
 late resource; neither looks at the other, and each has a position and a count of its own.
 Calls share nothing, so one machine describes each of any number of them.
 */
module VisualResource {
  import opened Wrappers

  /** What a promise rejects with.  `NoValue` is `undefined`. */
  datatype Reason =
    | NoValue
    | NotAnError(id: nat)
    | AnError(id: nat, parts: seq<Reason>, cause: Reason)

  const DEADLINE: Reason := AnError(0, [], NoValue)
  const CLEANUP_DEADLINE: Reason := AnError(1, [], NoValue)
  const AGGREGATE: nat := 2

  datatype Ending = Done | Broke(reason: Reason)

  /** The promise of the resource. */
  datatype Acquisition = Acquiring | Produced | Refused(reason: Reason)

  /** `Promise.race` of the acquisition and its deadline: the first to settle decides, for good. */
  datatype Race = Open | Delivered | Missed(reason: Reason)

  /** Where the call itself is. */
  datatype Main = Awaiting | Using | Used | Cleaning | Cleaned | Over

  /** Where the handler for a late resource is. */
  datatype Late = NotRegistered | Registered | LateCleaning | LateCleaned | NothingCame

  datatype Outcome = Pending | Returned | Threw(reason: Reason)

  /** `use` and `cleanup` are how the call saw the two end; the counts are invocations of `cleanup`. */
  datatype State = State(
    acquisition: Acquisition, timerFired: bool, race: Race,
    main: Main, use: Option<Ending>, cleanup: Option<Ending>, mainCleanups: nat, outcome: Outcome,
    late: Late, lateCleanups: nat)

  datatype Step =
    | Produce
    | Refuse(reason: Reason)
    | Deadline
    | BeginUse
    | Catch
    | EndUse(ending: Ending)
    | InvokeCleanup
    | EndCleanup(ending: Ending)
    | CleanupDeadline
    | Conclude
    | InvokeLateCleanup
    | LateRefusal
    | EndLateCleanup

  const INITIAL: State := State(Acquiring, false, Open, Awaiting, None, None, 0, Pending, NotRegistered, 0)

  /** `preserveVisualFailure`: an error keeps its identity and gains the cleanup failure as a cause. */
  function Preserved(primary: Reason, cleanup: Reason): Reason {
    if primary.AnError? then
      var cause := if primary.cause.NoValue? then cleanup else AnError(AGGREGATE, [primary.cause, cleanup], NoValue);
      primary.(cause := cause)
    else primary
  }

  ghost predicate Enabled(s: State, step: Step) {
    match step
    case Produce => s.acquisition.Acquiring?
    case Refuse(_) => s.acquisition.Acquiring?
    case Deadline => !s.timerFired
    case BeginUse => s.main.Awaiting? && s.race.Delivered?
    case Catch => s.main.Awaiting? && s.race.Missed?
    case EndUse(_) => s.main.Using?
    case InvokeCleanup => s.main.Used?
    case EndCleanup(_) => s.main.Cleaning?
    case CleanupDeadline => s.main.Cleaning?
    case Conclude => s.main.Cleaned? && s.use.Some? && s.cleanup.Some?
    case InvokeLateCleanup => s.late.Registered? && s.acquisition.Produced?
    case LateRefusal => s.late.Registered? && s.acquisition.Refused?
    case EndLateCleanup => s.late.LateCleaning?
  }

  /** How the call answers once the resource was used and its cleanup is over. */
  function Concluded(use: Ending, cleanup: Ending): Outcome {
    match use
    case Broke(primary) =>
      if cleanup.Broke? && !cleanup.reason.NoValue? then Threw(Preserved(primary, cleanup.reason)) else Threw(primary)
    case Done =>
      if cleanup.Broke? && !cleanup.reason.NoValue? then Threw(cleanup.reason) else Returned
  }

  ghost function Next(s: State, step: Step): State
    requires Enabled(s, step)
  {
    match step
    case Produce => s.(acquisition := Produced, race := if s.race.Open? then Delivered else s.race)
    case Refuse(e) => s.(acquisition := Refused(e), race := if s.race.Open? then Missed(e) else s.race)
    case Deadline => s.(timerFired := true, race := if s.race.Open? then Missed(DEADLINE) else s.race)
    case BeginUse => s.(main := Using)
    case Catch => s.(main := Over, outcome := Threw(s.race.reason), late := Registered)
    case EndUse(ending) => s.(main := Used, use := Some(ending))
    case InvokeCleanup => s.(main := Cleaning, mainCleanups := s.mainCleanups + 1)
    case EndCleanup(ending) => s.(main := Cleaned, cleanup := Some(ending))
    case CleanupDeadline => s.(main := Cleaned, cleanup := Some(Broke(CLEANUP_DEADLINE)))
    case Conclude => s.(main := Over, outcome := Concluded(s.use.value, s.cleanup.value))
    case InvokeLateCleanup => s.(late := LateCleaning, lateCleanups := s.lateCleanups + 1)
    case LateRefusal => s.(late := NothingCame)
    case EndLateCleanup => s.(late := LateCleaned)
  }

  // The invariant

  /** The race is decided once one of its two sides has settled, and stays as the first side decided it. */
  ghost predicate RaceInv(s: State) {
    && (s.race.Open? <==> s.acquisition.Acquiring? && !s.timerFired)
    && (s.race.Delivered? ==> s.acquisition.Produced?)
  }

  /** The call goes on to use and clean up only what was delivered, in that order. */
  ghost predicate MainInv(s: State) {
    && (!s.main.Awaiting? && !s.main.Over? ==> s.race.Delivered?)
    && (s.main.Awaiting? || s.main.Using? ==> s.use.None?)
    && (s.main.Used? || s.main.Cleaning? || s.main.Cleaned? ==> s.use.Some?)
    && (s.cleanup.Some? <==> s.main.Cleaned? || (s.main.Over? && s.race.Delivered?))
    && (s.outcome.Pending? <==> !s.main.Over?)
    && s.mainCleanups == if s.main.Cleaning? || s.cleanup.Some? then 1 else 0
  }

  ghost predicate OverInv(s: State) {
    s.main.Over? ==>
      && !s.race.Open?
      && (s.race.Delivered? ==> s.use.Some? && s.cleanup.Some? && s.outcome == Concluded(s.use.value, s.cleanup.value))
      && (s.race.Missed? ==> s.use.None? && s.outcome == Threw(s.race.reason))
  }

  /** The handler is there only after the call was told that the deadline was missed. */
  ghost predicate LateInv(s: State) {
    && (s.late.NotRegistered? <==> !(s.main.Over? && s.race.Missed?))
    && (s.late.LateCleaning? || s.late.LateCleaned? ==> s.acquisition.Produced?)
    && (s.late.NothingCame? ==> s.acquisition.Refused?)
    && s.lateCleanups == if s.late.LateCleaning? || s.late.LateCleaned? then 1 else 0
  }

  ghost predicate Inv(s: State) {
    RaceInv(s) && MainInv(s) && OverInv(s) && LateInv(s)
  }

  lemma StepInv(s: State, step: Step)
    requires Inv(s) && Enabled(s, step)
    ensures Inv(Next(s, step))
  {
  }

  ghost predicate Feasible(s: State, steps: seq<Step>)
    decreases |steps|
  {
    steps == [] || (Enabled(s, steps[0]) && Feasible(Next(s, steps[0]), steps[1..]))
  }

  ghost function After(s: State, steps: seq<Step>): State
    requires Feasible(s, steps)
    decreases |steps|
  {
    if steps == [] then s else After(Next(s, steps[0]), steps[1..])
  }

  lemma {:induction false} RunInv(s: State, steps: seq<Step>)
    requires Inv(s) && Feasible(s, steps)
    ensures Inv(After(s, steps))
    decreases |steps|
  {
    if steps != [] {
      StepInv(s, steps[0]);
      RunInv(Next(s, steps[0]), steps[1..]);
    }
  }

  function Work(s: State): nat {
    (if s.acquisition.Acquiring? then 1 else 0) + (if s.timerFired then 0 else 1)
    + (match s.main
       case Awaiting => 8 case Using => 7 case Used => 6 case Cleaning => 5 case Cleaned => 4 case Over => 0)
    + (match s.late
       case NotRegistered => 3 case Registered => 2 case LateCleaning => 1 case LateCleaned => 0 case NothingCame => 0)
  }

  lemma {:induction false} RunBounded(s: State, steps: seq<Step>)
    requires Inv(s) && Feasible(s, steps)
    ensures |steps| + Work(After(s, steps)) <= Work(s)
    decreases |steps|
  {
    if steps != [] {
      StepInv(s, steps[0]);
      assert Work(Next(s, steps[0])) < Work(s);
      RunBounded(Next(s, steps[0]), steps[1..]);
    }
  }

  // Cleanup

  /** How often `cleanup` was invoked, by either piece of program. */
  ghost function Cleanups(s: State): nat {
    s.mainCleanups + s.lateCleanups
  }

  /** The race lets at most one of the two pieces of program get as far as its cleanup. */
  lemma OneSideCleans(s: State)
    requires Inv(s)
    ensures s.mainCleanups > 0 ==> s.race.Delivered?
    ensures s.lateCleanups > 0 ==> s.race.Missed?
  {
  }

  /**
   In every run the two together invoke cleanup at most once, only for a resource, and the call
   itself only once its use has ended; only what was delivered is used.
   */
  lemma CleanupAtMostOnce(steps: seq<Step>)
    requires Feasible(INITIAL, steps)
    ensures var s := After(INITIAL, steps);
      && Cleanups(s) <= 1
      && (Cleanups(s) == 1 ==> s.acquisition.Produced?)
      && (s.mainCleanups == 1 ==> s.use.Some?)
      && (s.lateCleanups == 1 ==> s.use.None? && s.main.Over?)
      && (s.main.Using? || s.use.Some? ==> s.race.Delivered?)
  {
    RunInv(INITIAL, steps);
    OneSideCleans(After(INITIAL, steps));
  }

  /** Nothing is left to happen: every promise involved has settled. */
  ghost predicate Quiescent(s: State) {
    forall step :: !Enabled(s, step)
  }

  /**
   Every run ends, and when it has, the resource was cleaned up exactly once if there ever
   was one, and the caller has its answer.
   */
  lemma CleanupExactlyOnce(steps: seq<Step>)
    requires Feasible(INITIAL, steps)
    ensures |steps| <= Work(INITIAL)
    ensures Quiescent(After(INITIAL, steps)) ==>
      var s := After(INITIAL, steps);
      Cleanups(s) == (if s.acquisition.Produced? then 1 else 0) && !s.outcome.Pending?
  {
    RunInv(INITIAL, steps);
    RunBounded(INITIAL, steps);
    if Quiescent(After(INITIAL, steps)) {
      QuiescentMain(After(INITIAL, steps));
      QuiescentLate(After(INITIAL, steps));
    }
  }

  lemma QuiescentMain(s: State)
    requires Inv(s) && Quiescent(s)
    ensures s.main.Over? && s.mainCleanups == if s.race.Delivered? then 1 else 0
  {
    assert !Enabled(s, Produce) && !Enabled(s, Deadline) && !Enabled(s, BeginUse) && !Enabled(s, Catch);
    assert !Enabled(s, EndUse(Done)) && !Enabled(s, InvokeCleanup);
    assert !Enabled(s, EndCleanup(Done)) && !Enabled(s, Conclude);
  }

  lemma QuiescentLate(s: State)
    requires Inv(s) && Quiescent(s) && s.main.Over?
    ensures s.lateCleanups == if s.race.Missed? && s.acquisition.Produced? then 1 else 0
    ensures !s.acquisition.Acquiring?
  {
    assert !Enabled(s, Produce) && !Enabled(s, InvokeLateCleanup) && !Enabled(s, LateRefusal) &&
      !Enabled(s, EndLateCleanup);
  }

  // The answer

  /** Same error, possibly with a cause attached. */
  predicate SameError(a: Reason, b: Reason) {
    a == b || (a.AnError? && b.AnError? && a.id == b.id && a.parts == b.parts)
  }

  /** A failed use is always the error thrown, whatever the cleanup did. */
  lemma UseFailureWins(steps: seq<Step>)
    requires Feasible(INITIAL, steps)
    ensures var s := After(INITIAL, steps);
      s.use.Some? && s.use.value.Broke? && !s.outcome.Pending? ==>
        s.outcome.Threw? && SameError(s.outcome.reason, s.use.value.reason)
  {
    RunInv(INITIAL, steps);
  }

  /** A missed deadline is the answer for good: neither a late resource nor its cleanup changes it, and nothing is
      used. */
  lemma {:induction false} MissedStaysMissed(s: State, steps: seq<Step>)
    requires Inv(s) && Feasible(s, steps) && s.race.Missed?
    ensures var t := After(s, steps);
      && t.race == s.race && t.use.None? && !t.main.Using?
      && (t.outcome.Pending? || t.outcome == Threw(s.race.reason))
      && (!s.outcome.Pending? ==> t.outcome == s.outcome)
    decreases |steps|
  {
    if steps != [] {
      StepInv(s, steps[0]);
      MissedStaysMissed(Next(s, steps[0]), steps[1..]);
    }
  }

  /**
   When cleanup rejects with `undefined` the failure goes unnoticed: a call returns exactly
   when its use succeeded and cleanup succeeded or rejected with no value.
   */
  lemma ReturnsIff(steps: seq<Step>)
    requires Feasible(INITIAL, steps)
    ensures var s := After(INITIAL, steps);
      !s.outcome.Pending? ==>
        (s.outcome.Returned? <==>
          s.use == Some(Done) && s.cleanup.Some? && (s.cleanup.value.Done? || s.cleanup.value.reason.NoValue?))
  {
    RunInv(INITIAL, steps);
  }

  /** A run in which cleanup fails and the call returns as if nothing had happened. */
  lemma FailedCleanupUnnoticed()
    ensures var steps := [Produce, BeginUse, EndUse(Done), InvokeCleanup, EndCleanup(Broke(NoValue)), Conclude];
      Feasible(INITIAL, steps) && After(INITIAL, steps).cleanup == Some(Broke(NoValue)) &&
        After(INITIAL, steps).outcome == Returned
  {
    var s1 := Next(INITIAL, Produce);
    var s2 := Next(s1, BeginUse);
    var s3 := Next(s2, EndUse(Done));
    var s4 := Next(s3, InvokeCleanup);
    var s5 := Next(s4, EndCleanup(Broke(NoValue)));
    var s6 := Next(s5, Conclude);
    var tail := [EndCleanup(Broke(NoValue)), Conclude];
    assert Feasible(s5, [Conclude]) && After(s5, [Conclude]) == s6;
    assert tail[1..] == [Conclude];
    assert Feasible(s4, tail) && After(s4, tail) == s6;
    var use := [EndUse(Done), InvokeCleanup] + tail;
    assert use[1..] == [InvokeCleanup] + tail && ([InvokeCleanup] + tail)[1..] == tail;
    assert Feasible(s3, [InvokeCleanup] + tail) && After(s3, [InvokeCleanup] + tail) == s6;
    assert Feasible(s2, use) && After(s2, use) == s6;
    var steps := [Produce, BeginUse] + use;
    assert steps[1..] == [BeginUse] + use && ([BeginUse] + use)[1..] == use;
    assert Feasible(s1, [BeginUse] + use) && After(s1, [BeginUse] + use) == s6;
    assert Feasible(INITIAL, steps) && After(INITIAL, steps) == s6;
    assert steps == [Produce, BeginUse, EndUse(Done), InvokeCleanup, EndCleanup(Broke(NoValue)), Conclude];
  }

  // The answer in terms of what happened

  /** Which of the resource, its refusal and the deadline came first. */
  ghost function FirstOfRace(steps: seq<Step>): Race {
    if steps == [] then Open
    else if steps[0].Produce? then Delivered
    else if steps[0].Refuse? then Missed(steps[0].reason)
    else if steps[0].Deadline? then Missed(DEADLINE)
    else FirstOfRace(steps[1..])
  }

  ghost function UseIn(steps: seq<Step>): Option<Ending> {
    if steps == [] then None else if steps[0].EndUse? then Some(steps[0].ending) else UseIn(steps[1..])
  }

  ghost function CleanupIn(steps: seq<Step>): Option<Ending> {
    if steps == [] then None
    else if steps[0].EndCleanup? then Some(steps[0].ending)
    else if steps[0].CleanupDeadline? then Some(Broke(CLEANUP_DEADLINE))
    else CleanupIn(steps[1..])
  }

  lemma {:induction false} RunRecords(s: State, steps: seq<Step>)
    requires Inv(s) && Feasible(s, steps)
    ensures var t := After(s, steps);
      && t.race == (if s.race.Open? then FirstOfRace(steps) else s.race)
      && t.use == (if s.use.None? then UseIn(steps) else s.use)
      && t.cleanup == (if s.cleanup.None? then CleanupIn(steps) else s.cleanup)
    decreases |steps|
  {
    if steps != [] {
      StepInv(s, steps[0]);
      RunRecords(Next(s, steps[0]), steps[1..]);
    }
  }

  /** The failed use with the clean-up failure as its cause, next to a cause it already had. */
  ghost predicate IsCausedBy(thrown: Reason, primary: Reason, cleanup: Reason) {
    if !primary.AnError? then thrown == primary
    else
      && thrown.AnError? && thrown.id == primary.id && thrown.parts == primary.parts
      && (if primary.cause == NoValue then thrown.cause == cleanup
          else thrown.cause == AnError(AGGREGATE, [primary.cause, cleanup], NoValue))
  }

  /** What a call that used its resource tells its caller. */
  ghost predicate Answers(outcome: Outcome, use: Ending, cleanup: Ending) {
    var failure := if cleanup.Broke? then cleanup.reason else NoValue;
    match use
    case Done => outcome == if failure == NoValue then Returned else Threw(failure)
    case Broke(primary) =>
      && outcome.Threw?
      && if failure == NoValue then outcome.reason == primary else IsCausedBy(outcome.reason, primary, failure)
  }

  /**
   In every run that is over the caller was told the refusal or the deadline, whichever came first,
   if either came before the resource; and otherwise the result, or the failure of its use, or that
   of its clean-up.
   */
  lemma AnswerOfRun(steps: seq<Step>)
    requires Feasible(INITIAL, steps)
    ensures var s := After(INITIAL, steps);
      !s.outcome.Pending? ==>
        match FirstOfRace(steps)
        case Open => false
        case Missed(reason) => s.outcome == Threw(reason)
        case Delivered =>
          && UseIn(steps).Some? && CleanupIn(steps).Some?
          && Answers(s.outcome, UseIn(steps).value, CleanupIn(steps).value)
  {
    RunInv(INITIAL, steps);
    RunRecords(INITIAL, steps);
  }

  /** The tail of `withVisualResource` and its flags: the use failure first, then the cleanup failure, else the
      result. */
  method Answer(use: Ending, cleanup: Ending) returns (outcome: Outcome)
    ensures outcome == Concluded(use, cleanup) && Answers(outcome, use, cleanup)
    ensures outcome.Returned? <==> use.Done? && (cleanup.Broke? ==> cleanup.reason.NoValue?)
    ensures use.Broke? ==> outcome.Threw? && SameError(outcome.reason, use.reason)
    ensures use.Done? && outcome.Threw? ==> cleanup.Broke? && outcome.reason == cleanup.reason
  {
    var failed := false;
    var primaryFailure := NoValue;
    if use.Broke? {
      failed := true;
      primaryFailure := use.reason;
    }
    var cleanupFailure := NoValue;
    if cleanup.Broke? {
      cleanupFailure := cleanup.reason;
    }
    if failed {
      if !cleanupFailure.NoValue? {
        primaryFailure := Preserved(primaryFailure, cleanupFailure);
      }
      return Threw(primaryFailure);
    }
    if !cleanupFailure.NoValue? {
      return Threw(cleanupFailure);
    }
    return Returned;
  }
}
