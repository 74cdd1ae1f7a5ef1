/**
 `withVisualSourceEnvironment`: a process-wide lease on environment variables, built from a
 chain of promises.  One step of the machine is one uninterrupted piece of the program:
 entering, a timer firing, the callback of the previous tail, an operation settling, or a
 tail promise resolving.
 */
module EnvironmentLease {
  import opened Wrappers
  import opened Utf16
  import opened Sorting

  type Key = Text
  type Env = map<Key, Text>

  datatype Binding = Binding(key: Key, value: Text)

  datatype Settlement = Fulfilled(value: nat) | Thrown(error: nat)

  /** What the promise returned to the caller has become. */
  datatype Outcome = Pending | TimedOut | Settled(settlement: Settlement)

  datatype Phase =
    | Queued
    | Holding(previous: map<Key, Option<Text>>)
    | Released

  /** One call; `ran` records that its operation was ever started. */
  datatype Call = Call(entries: seq<Binding>, phase: Phase, timedOut: bool, timerArmed: bool, ran: bool,
      outcome: Outcome)

  /** `tails[i]` tells whether the tail promise that call `i` found on entry has resolved. */
  datatype State = State(env: Env, calls: seq<Call>, tails: seq<bool>)

  datatype Step =
    | Enter(entries: seq<Binding>)
    | Expire(call: nat)
    | Begin(call: nat)
    | Settle(call: nat, settlement: Settlement)
    | ResolveTail(call: nat)
    | WriteOutside(key: Key, value: Option<Text>)

  // Environments

  predicate BindingBefore(a: Binding, b: Binding) {
    Before(a.key, b.key)
  }

  function Bound(entries: seq<Binding>): (r: Env)
    ensures forall k :: k in r <==> exists i :: 0 <= i < |entries| && entries[i].key == k
  {
    if entries == [] then map[]
    else
      var r := Bound(entries[1..])[entries[0].key := entries[0].value];
      assert forall k :: k in r <==> exists i :: 0 <= i < |entries| && entries[i].key == k by {
        forall k ensures k in r <==> exists i :: 0 <= i < |entries| && entries[i].key == k {
          if k in r && k != entries[0].key {
            var i :| 0 <= i < |entries[1..]| && entries[1..][i].key == k;
            assert entries[i + 1].key == k;
          }
          if i :| 0 <= i < |entries| && entries[i].key == k && i > 0 {
            assert entries[1..][i - 1].key == k;
          }
        }
      }
      r
  }

  /** The entries of one object: no key twice. */
  ghost predicate Distinct(entries: seq<Binding>) {
    forall i, j :: 0 <= i < j < |entries| ==> entries[i].key != entries[j].key
  }

  function Lookup(env: Env, k: Key): Option<Text> {
    if k in env then Some(env[k]) else None
  }

  /** `process.env[k] = v`, or `delete process.env[k]` when there is no value. */
  function Assign(env: Env, k: Key, v: Option<Text>): Env {
    if v.Some? then env[k := v.value] else env - {k}
  }

  function Captured(env: Env, keys: set<Key>): map<Key, Option<Text>> {
    map k | k in keys :: Lookup(env, k)
  }

  function Restored(env: Env, previous: map<Key, Option<Text>>): Env {
    map k | k in env.Keys + previous.Keys && (k in previous ==> previous[k].Some?) ::
      if k in previous then previous[k].value else env[k]
  }

  lemma RestoreUndoesApply(env: Env, bindings: Env)
    ensures Restored(env + bindings, Captured(env, bindings.Keys)) == env
  {
  }

  // The machine

  ghost predicate Enabled(s: State, step: Step) {
    match step
    case Enter(entries) => Distinct(entries)
    case Expire(i) => i < |s.calls| && s.calls[i].timerArmed
    case Begin(i) => i < |s.calls| && i < |s.tails| && s.tails[i] && s.calls[i].phase.Queued?
    case Settle(i, _) => i < |s.calls| && s.calls[i].phase.Holding?
    case ResolveTail(i) =>
      i < |s.calls| && i + 1 < |s.tails| && s.tails[i] && s.calls[i].phase.Released? && !s.tails[i + 1]
    case WriteOutside(k, _) =>
      forall i :: 0 <= i < |s.calls| && s.calls[i].phase.Holding? ==> k !in s.calls[i].phase.previous
  }

  function Expired(c: Call): Call {
    c.(timedOut := true, timerArmed := false, outcome := if c.outcome.Pending? then TimedOut else c.outcome)
  }

  function Begun(env: Env, c: Call): Call {
    if c.timedOut then c.(phase := Released)
    else c.(phase := Holding(Captured(env, Bound(c.entries).Keys)), ran := true)
  }

  function Finished(c: Call, settlement: Settlement): Call {
    c.(phase := Released, timerArmed := false, outcome := if c.timedOut then c.outcome else Settled(settlement))
  }

  ghost function Next(s: State, step: Step): State
    requires Enabled(s, step)
  {
    match step
    case Enter(entries) =>
      s.(calls := s.calls + [Call(entries, Queued, false, true, false, Pending)], tails := s.tails + [false])
    case Expire(i) => s.(calls := s.calls[i := Expired(s.calls[i])])
    case Begin(i) =>
      s.(env := if s.calls[i].timedOut then s.env else s.env + Bound(s.calls[i].entries),
         calls := s.calls[i := Begun(s.env, s.calls[i])])
    case Settle(i, settlement) =>
      s.(env := Restored(s.env, s.calls[i].phase.previous), calls := s.calls[i := Finished(s.calls[i], settlement)])
    case ResolveTail(i) => s.(tails := s.tails[i + 1 := true])
    case WriteOutside(k, v) => s.(env := Assign(s.env, k, v))
  }

  function Initial(env: Env): State {
    State(env, [], [true])
  }

  // The invariant

  ghost predicate ValidCall(env: Env, c: Call) {
    && Distinct(c.entries)
    && (c.phase.Holding? ==>
          && !c.timerArmed == c.timedOut
          && c.ran
          && c.phase.previous.Keys == Bound(c.entries).Keys
          && forall k :: k in c.phase.previous ==> k in env && env[k] == Bound(c.entries)[k])
    && (c.phase.Queued? ==> !c.ran && c.timerArmed == !c.timedOut)
    && (c.timedOut <==> c.outcome.TimedOut?)
    && (c.phase.Released? && !c.timedOut ==> c.ran && c.outcome.Settled? && !c.timerArmed)
    && (c.outcome.Settled? ==> c.phase.Released?)
    && (c.timerArmed ==> c.outcome.Pending? && !c.phase.Released?)
  }

  ghost predicate Inv(s: State) {
    && |s.tails| == |s.calls| + 1
    && s.tails[0]
    && (forall i :: 0 <= i < |s.calls| && s.tails[i + 1] ==> s.tails[i] && s.calls[i].phase.Released?)
    && (forall i :: 0 <= i < |s.calls| && !s.calls[i].phase.Queued? ==> s.tails[i])
    && (forall i :: 0 <= i < |s.calls| ==> ValidCall(s.env, s.calls[i]))
  }

  /** A resolved tail means that every earlier call has given the lease up. */
  lemma {:induction false} TailOrdersCalls(s: State, i: nat, j: nat)
    requires Inv(s) && i < j <= |s.calls| && s.tails[j]
    ensures s.calls[i].phase.Released?
    decreases j
  {
    if i < j - 1 {
      TailOrdersCalls(s, i, j - 1);
    }
  }

  /** In every reachable state at most one call's bindings are applied. */
  lemma AtMostOneHolder(s: State, i: nat, j: nat)
    requires Inv(s) && i < |s.calls| && j < |s.calls|
    requires s.calls[i].phase.Holding? && s.calls[j].phase.Holding?
    ensures i == j
  {
    if i < j {
      TailOrdersCalls(s, i, j);
    } else if j < i {
      TailOrdersCalls(s, j, i);
    }
  }

  /** A call leaves the queue only after all calls that arrived before it have ended. */
  lemma StartsInArrivalOrder(s: State, i: nat, j: nat)
    requires Inv(s) && i < j < |s.calls| && !s.calls[j].phase.Queued?
    ensures s.calls[i].phase.Released?
  {
    TailOrdersCalls(s, i, j);
  }

  lemma InitialInv(env: Env)
    ensures Inv(Initial(env))
  {
  }

  lemma NoOtherHolder(s: State, i: nat)
    requires Inv(s) && i < |s.calls| && s.tails[i] && !s.calls[i].phase.Released?
    ensures forall j :: 0 <= j < |s.calls| && j != i ==> !s.calls[j].phase.Holding?
  {
    forall j | 0 <= j < |s.calls| && j != i ensures !s.calls[j].phase.Holding? {
      if j < i {
        TailOrdersCalls(s, j, i);
      } else if s.calls[j].phase.Holding? {
        TailOrdersCalls(s, i, j);
      }
    }
  }

  lemma EnterInv(s: State, entries: seq<Binding>)
    requires Inv(s) && Enabled(s, Enter(entries))
    ensures Inv(Next(s, Enter(entries)))
  {
  }

  lemma ExpireInv(s: State, i: nat)
    requires Inv(s) && Enabled(s, Expire(i))
    ensures Inv(Next(s, Expire(i)))
  {
    assert ValidCall(s.env, s.calls[i]);
  }

  lemma BeginInv(s: State, i: nat)
    requires Inv(s) && Enabled(s, Begin(i))
    ensures Inv(Next(s, Begin(i)))
  {
    NoOtherHolder(s, i);
    var t := Next(s, Begin(i));
    assert ValidCall(s.env, s.calls[i]);
    assert ValidCall(t.env, t.calls[i]);
    forall j | 0 <= j < |t.calls| && j != i ensures ValidCall(t.env, t.calls[j]) {
      assert t.calls[j] == s.calls[j] && ValidCall(s.env, s.calls[j]);
    }
  }

  lemma SettleInv(s: State, i: nat, settlement: Settlement)
    requires Inv(s) && Enabled(s, Settle(i, settlement))
    ensures Inv(Next(s, Settle(i, settlement)))
  {
    NoOtherHolder(s, i);
    var t := Next(s, Settle(i, settlement));
    assert ValidCall(s.env, s.calls[i]);
    forall j | 0 <= j < |t.calls| && j != i ensures ValidCall(t.env, t.calls[j]) {
      assert t.calls[j] == s.calls[j] && ValidCall(s.env, s.calls[j]);
    }
  }

  lemma WriteInv(s: State, k: Key, v: Option<Text>)
    requires Inv(s) && Enabled(s, WriteOutside(k, v))
    ensures Inv(Next(s, WriteOutside(k, v)))
  {
    var t := Next(s, WriteOutside(k, v));
    forall j | 0 <= j < |t.calls| ensures ValidCall(t.env, t.calls[j]) {
      assert ValidCall(s.env, s.calls[j]);
    }
  }

  lemma StepInv(s: State, step: Step)
    requires Inv(s) && Enabled(s, step)
    ensures Inv(Next(s, step))
  {
    match step
    case Enter(entries) => EnterInv(s, entries);
    case Expire(i) => ExpireInv(s, i);
    case Begin(i) => BeginInv(s, i);
    case Settle(i, settlement) => SettleInv(s, i, settlement);
    case ResolveTail(i) =>
    case WriteOutside(k, v) => WriteInv(s, k, v);
  }

  // What the environment would be with no lease held

  ghost predicate Idle(s: State) {
    forall i :: 0 <= i < |s.calls| ==> !s.calls[i].phase.Holding?
  }

  /** The environment with the holder's bindings, if any, taken back out. */
  ghost function Baseline(s: State): Env {
    if i :| 0 <= i < |s.calls| && s.calls[i].phase.Holding? then Restored(s.env, s.calls[i].phase.previous)
    else s.env
  }

  lemma BaselineOfHolder(s: State, i: nat)
    requires Inv(s) && i < |s.calls| && s.calls[i].phase.Holding?
    ensures Baseline(s) == Restored(s.env, s.calls[i].phase.previous)
  {
    forall j | 0 <= j < |s.calls| && s.calls[j].phase.Holding? ensures j == i {
      AtMostOneHolder(s, i, j);
    }
  }

  /** With a holder, the environment is the baseline overlaid with exactly that call's bindings. */
  lemma EnvironmentIsOverlay(s: State, i: nat)
    requires Inv(s) && i < |s.calls| && s.calls[i].phase.Holding?
    ensures s.env == Baseline(s) + Bound(s.calls[i].entries)
  {
    BaselineOfHolder(s, i);
    assert ValidCall(s.env, s.calls[i]);
  }

  ghost function Outside(env: Env, step: Step): Env {
    if step.WriteOutside? then Assign(env, step.key, step.value) else env
  }

  lemma IdleBaseline(s: State)
    requires Idle(s)
    ensures Baseline(s) == s.env
  {
  }

  lemma BaselineUnmoved(s: State, t: State, i: nat)
    requires Inv(s) && Inv(t) && s.env == t.env
    requires i < |s.calls| && i < |t.calls| && s.calls[i].phase.Holding? && t.calls[i].phase == s.calls[i].phase
    ensures Baseline(t) == Baseline(s)
  {
    BaselineOfHolder(s, i);
    BaselineOfHolder(t, i);
  }

  lemma RestoreAroundWrite(env: Env, previous: map<Key, Option<Text>>, k: Key, v: Option<Text>)
    requires k !in previous
    ensures Restored(Assign(env, k, v), previous) == Assign(Restored(env, previous), k, v)
  {
  }

  lemma WriteMovesBaseline(s: State, k: Key, v: Option<Text>)
    requires Inv(s) && Enabled(s, WriteOutside(k, v))
    ensures Baseline(Next(s, WriteOutside(k, v))) == Assign(Baseline(s), k, v)
  {
    var t := Next(s, WriteOutside(k, v));
    WriteInv(s, k, v);
    if i :| 0 <= i < |s.calls| && s.calls[i].phase.Holding? {
      BaselineOfHolder(s, i);
      BaselineOfHolder(t, i);
      RestoreAroundWrite(s.env, s.calls[i].phase.previous, k, v);
    } else {
      IdleBaseline(s);
      IdleBaseline(t);
    }
  }

  lemma BeginKeepsBaseline(s: State, i: nat)
    requires Inv(s) && Enabled(s, Begin(i))
    ensures Baseline(Next(s, Begin(i))) == Baseline(s)
  {
    var t := Next(s, Begin(i));
    BeginInv(s, i);
    NoOtherHolder(s, i);
    IdleBaseline(s);
    if s.calls[i].timedOut {
      IdleBaseline(t);
    } else {
      BaselineOfHolder(t, i);
      RestoreUndoesApply(s.env, Bound(s.calls[i].entries));
    }
  }

  lemma SettleKeepsBaseline(s: State, i: nat, settlement: Settlement)
    requires Inv(s) && Enabled(s, Settle(i, settlement))
    ensures Baseline(Next(s, Settle(i, settlement))) == Baseline(s)
  {
    NoOtherHolder(s, i);
    BaselineOfHolder(s, i);
    IdleBaseline(Next(s, Settle(i, settlement)));
  }

  /** No protocol step moves the baseline; an outside write moves it by exactly that write. */
  lemma StepMovesBaseline(s: State, step: Step)
    requires Inv(s) && Enabled(s, step)
    ensures Baseline(Next(s, step)) == Outside(Baseline(s), step)
  {
    match step
    case Begin(i) => BeginKeepsBaseline(s, i);
    case Settle(i, settlement) => SettleKeepsBaseline(s, i, settlement);
    case WriteOutside(k, v) => WriteMovesBaseline(s, k, v);
    case _ =>
      var t := Next(s, step);
      StepInv(s, step);
      if i :| 0 <= i < |s.calls| && s.calls[i].phase.Holding? {
        BaselineUnmoved(s, t, i);
      } else {
        IdleBaseline(s);
        IdleBaseline(t);
      }
  }

  // Runs

  ghost predicate Feasible(s: State, steps: seq<Step>)
    decreases |steps|
  {
    steps == [] || (Enabled(s, steps[0]) && Feasible(Next(s, steps[0]), steps[1..]))
  }

  ghost function After(s: State, steps: seq<Step>): State
    requires Feasible(s, steps)
    decreases |steps|
  {
    if steps == [] then s else After(Next(s, steps[0]), steps[1..])
  }

  ghost function OutsideAll(env: Env, steps: seq<Step>): Env
    decreases |steps|
  {
    if steps == [] then env else OutsideAll(Outside(env, steps[0]), steps[1..])
  }

  lemma {:induction false} RunInv(s: State, steps: seq<Step>)
    requires Inv(s) && Feasible(s, steps)
    ensures Inv(After(s, steps))
    ensures Baseline(After(s, steps)) == OutsideAll(Baseline(s), steps)
    decreases |steps|
  {
    if steps != [] {
      StepInv(s, steps[0]);
      StepMovesBaseline(s, steps[0]);
      RunInv(Next(s, steps[0]), steps[1..]);
    }
  }

  /**
   Lease safety over whole runs: whatever the interleaving, whenever no call holds the lease
   the environment is the initial one plus the writes other code made; every key a call
   touched is back to its value, or absent again.
   */
  lemma LeaseSafety(env: Env, steps: seq<Step>)
    requires Feasible(Initial(env), steps)
    ensures Idle(After(Initial(env), steps)) ==> After(Initial(env), steps).env == OutsideAll(env, steps)
    ensures forall i ::
      0 <= i < |After(Initial(env), steps).calls| && After(Initial(env), steps).calls[i].phase.Holding? ==>
      After(Initial(env), steps).env == OutsideAll(env, steps) + Bound(After(Initial(env), steps).calls[i].entries)
  {
    InitialInv(env);
    IdleBaseline(Initial(env));
    RunInv(Initial(env), steps);
    var t := After(Initial(env), steps);
    if Idle(t) {
      IdleBaseline(t);
    }
    forall i | 0 <= i < |t.calls| && t.calls[i].phase.Holding?
      ensures t.env == OutsideAll(env, steps) + Bound(t.calls[i].entries)
    {
      EnvironmentIsOverlay(t, i);
    }
  }

  /** In every interleaving a call leaves the queue only after all earlier calls are over, so one at most holds the
      lease. */
  lemma OneHolderInArrivalOrder(env: Env, steps: seq<Step>)
    requires Feasible(Initial(env), steps)
    ensures var calls := After(Initial(env), steps).calls;
      && (forall i, j :: 0 <= i < j < |calls| && !calls[j].phase.Queued? ==> calls[i].phase.Released?)
      && (forall i, j :: 0 <= i < |calls| && 0 <= j < |calls| && calls[i].phase.Holding? && calls[j].phase.Holding? ==>
            i == j)
  {
    InitialInv(env);
    RunInv(Initial(env), steps);
    var t := After(Initial(env), steps);
    forall i, j | 0 <= i < j < |t.calls| && !t.calls[j].phase.Queued? ensures t.calls[i].phase.Released? {
      StartsInArrivalOrder(t, i, j);
    }
  }

  // Timeouts

  /** What a call never loses again: its entries, and an outcome once it has one. */
  ghost predicate Follows(c: Call, d: Call) {
    && d.entries == c.entries
    && (!c.outcome.Pending? ==> d.outcome == c.outcome)
    && (c.ran ==> d.ran)
    && (c.timedOut && !c.ran ==> !d.ran && !d.phase.Holding?)
    && (c.phase.Released? ==> d.phase.Released? && d.ran == c.ran)
  }

  lemma StepFollows(s: State, step: Step, i: nat)
    requires Inv(s) && Enabled(s, step) && i < |s.calls|
    ensures i < |Next(s, step).calls| && Follows(s.calls[i], Next(s, step).calls[i])
  {
    assert ValidCall(s.env, s.calls[i]);
  }

  lemma {:induction false} RunFollows(s: State, steps: seq<Step>, i: nat)
    requires Inv(s) && Feasible(s, steps) && i < |s.calls|
    ensures i < |After(s, steps).calls| && Follows(s.calls[i], After(s, steps).calls[i])
    decreases |steps|
  {
    assert ValidCall(s.env, s.calls[i]);
    if steps != [] {
      StepInv(s, steps[0]);
      StepFollows(s, steps[0], i);
      RunFollows(Next(s, steps[0]), steps[1..], i);
      assert ValidCall(Next(s, steps[0]).env, Next(s, steps[0]).calls[i]);
    }
  }

  /** A call whose timer fires while it waits never runs its operation or touches the environment. */
  lemma WaitingTimeoutNeverRuns(s: State, i: nat, steps: seq<Step>)
    requires Inv(s) && i < |s.calls| && s.calls[i].phase.Queued? && Enabled(s, Expire(i))
    requires Feasible(Next(s, Expire(i)), steps)
    ensures var c := After(Next(s, Expire(i)), steps).calls; i < |c| && !c[i].ran && !c[i].phase.Holding?
    ensures After(Next(s, Expire(i)), steps).calls[i].outcome == TimedOut
  {
    assert ValidCall(s.env, s.calls[i]);
    StepInv(s, Expire(i));
    RunFollows(Next(s, Expire(i)), steps, i);
  }

  /** The caller's promise settles once: no later step changes it. */
  lemma SettlesOnce(s: State, steps: seq<Step>, i: nat)
    requires Inv(s) && Feasible(s, steps) && i < |s.calls| && !s.calls[i].outcome.Pending?
    ensures i < |After(s, steps).calls| && After(s, steps).calls[i].outcome == s.calls[i].outcome
  {
    RunFollows(s, steps, i);
  }

  /** What the first of a call's timer firing and its operation ending tells the caller. */
  ghost function FirstAnswer(i: nat, steps: seq<Step>): Outcome {
    if steps == [] then Pending
    else if steps[0] == Expire(i) then TimedOut
    else if steps[0].Settle? && steps[0].call == i then Settled(steps[0].settlement)
    else FirstAnswer(i, steps[1..])
  }

  lemma {:induction false} AnswerFrom(s: State, steps: seq<Step>, i: nat)
    requires Inv(s) && Feasible(s, steps) && i < |After(s, steps).calls|
    requires i < |s.calls| ==> s.calls[i].outcome.Pending?
    ensures After(s, steps).calls[i].outcome == FirstAnswer(i, steps)
    decreases |steps|
  {
    if steps != [] {
      StepInv(s, steps[0]);
      var t := Next(s, steps[0]);
      if i < |s.calls| {
        assert ValidCall(s.env, s.calls[i]);
      }
      if i < |t.calls| && !t.calls[i].outcome.Pending? {
        SettlesOnce(t, steps[1..], i);
      } else {
        AnswerFrom(t, steps[1..], i);
      }
    }
  }

  lemma {:induction false} AnswerStep(i: nat, steps: seq<Step>)
    ensures FirstAnswer(i, steps).Settled? ==> Settle(i, FirstAnswer(i, steps).settlement) in steps
    ensures FirstAnswer(i, steps).TimedOut? ==> Expire(i) in steps
  {
    if steps != [] {
      AnswerStep(i, steps[1..]);
      assert steps[0] in steps && forall x :: x in steps[1..] ==> x in steps;
    }
  }

  /**
   In every run the caller gets what its operation came to, value or error, if that came before
   its timer fired, and the time-out if the timer was first.
   */
  lemma CallerGetsAnswer(env: Env, steps: seq<Step>, i: nat)
    requires Feasible(Initial(env), steps) && i < |After(Initial(env), steps).calls|
    ensures var outcome := After(Initial(env), steps).calls[i].outcome;
      && outcome == FirstAnswer(i, steps)
      && (outcome.Settled? ==> Settle(i, outcome.settlement) in steps)
      && (outcome.TimedOut? ==> Expire(i) in steps)
  {
    InitialInv(env);
    AnswerFrom(Initial(env), steps, i);
    AnswerStep(i, steps);
  }

  ghost predicate SettlesIn(i: nat, steps: seq<Step>) {
    exists k :: 0 <= k < |steps| && steps[k].Settle? && steps[k].call == i
  }

  /** A holder, timed out or not, keeps the lease until its own operation settles: no later call begins before. */
  lemma {:induction false} HolderKeepsLease(s: State, i: nat, steps: seq<Step>)
    requires Inv(s) && Feasible(s, steps) && i < |s.calls| && s.calls[i].phase.Holding?
    requires !SettlesIn(i, steps)
    ensures var c := After(s, steps).calls;
      i < |c| && c[i].phase == s.calls[i].phase && forall j :: i < j < |c| ==> c[j].phase.Queued?
    decreases |steps|
  {
    forall j | i < j < |s.calls| ensures s.calls[j].phase.Queued? {
      if !s.calls[j].phase.Queued? {
        StartsInArrivalOrder(s, i, j);
      }
    }
    if steps != [] {
      StepInv(s, steps[0]);
      assert ValidCall(s.env, s.calls[i]);
      assert !(steps[0].Settle? && steps[0].call == i);
      forall k | 0 <= k < |steps[1..]| ensures !(steps[1..][k].Settle? && steps[1..][k].call == i) {
        assert steps[1..][k] == steps[k + 1];
      }
      HolderKeepsLease(Next(s, steps[0]), i, steps[1..]);
    }
  }

  // Progress

  function CallWork(c: Call): nat {
    (if c.phase.Queued? then 2 else if c.phase.Holding? then 1 else 0) + (if c.timerArmed then 1 else 0)
  }

  function CallsWork(calls: seq<Call>): nat {
    if calls == [] then 0 else CallWork(calls[0]) + CallsWork(calls[1..])
  }

  function TailsWork(tails: seq<bool>): nat {
    if tails == [] then 0 else (if tails[0] then 0 else 1) + TailsWork(tails[1..])
  }

  lemma {:induction false} CallsWorkUpdate(calls: seq<Call>, i: nat, c: Call)
    requires i < |calls|
    ensures CallsWork(calls[i := c]) == CallsWork(calls) - CallWork(calls[i]) + CallWork(c)
  {
    if i > 0 {
      CallsWorkUpdate(calls[1..], i - 1, c);
      assert calls[i := c][1..] == calls[1..][i - 1 := c];
    } else {
      assert calls[0 := c][1..] == calls[1..];
    }
  }

  lemma {:induction false} TailsWorkUpdate(tails: seq<bool>, i: nat)
    requires i < |tails| && !tails[i]
    ensures TailsWork(tails[i := true]) == TailsWork(tails) - 1
  {
    if i > 0 {
      TailsWorkUpdate(tails[1..], i - 1);
      assert tails[i := true][1..] == tails[1..][i - 1 := true];
    } else {
      assert tails[0 := true][1..] == tails[1..];
    }
  }

  /** The protocol steps that can still happen before the call is over: its own, its predecessors', and their tails'. */
  function WorkUpTo(s: State, i: nat): nat
    requires i < |s.calls| && i < |s.tails|
  {
    CallsWork(s.calls[..i + 1]) + TailsWork(s.tails[..i + 1])
  }

  lemma {:induction false} CallsWorkBound(calls: seq<Call>)
    ensures CallsWork(calls) <= 3 * |calls|
  {
    if calls != [] {
      CallsWorkBound(calls[1..]);
    }
  }

  lemma {:induction false} TailsWorkBound(tails: seq<bool>)
    ensures TailsWork(tails) <= |tails| - if tails != [] && tails[0] then 1 else 0
  {
    if tails != [] {
      TailsWorkBound(tails[1..]);
    }
  }

  /** The work ahead of a call depends on its place in the queue alone. */
  lemma WorkUpToBound(s: State, i: nat)
    requires Inv(s) && i < |s.calls|
    ensures WorkUpTo(s, i) <= 4 * i + 3
  {
    CallsWorkBound(s.calls[..i + 1]);
    TailsWorkBound(s.tails[..i + 1]);
  }

  /** The step belongs to the call or to one that arrived before it. */
  predicate Serves(step: Step, i: nat) {
    match step
    case Expire(c) => c <= i
    case Begin(c) => c <= i
    case Settle(c, _) => c <= i
    case ResolveTail(c) => c < i
    case Enter(_) => false
    case WriteOutside(_, _) => false
  }

  lemma CallStepWorks(s: State, step: Step, i: nat)
    requires Inv(s) && Enabled(s, step) && i < |s.calls| && (step.Expire? || step.Begin? || step.Settle?)
    ensures i < |Next(s, step).calls| && Next(s, step).tails == s.tails
    ensures CallsWork(Next(s, step).calls[..i + 1]) <= CallsWork(s.calls[..i + 1])
    ensures step.call <= i ==> CallsWork(Next(s, step).calls[..i + 1]) < CallsWork(s.calls[..i + 1])
  {
    var c := step.call;
    assert ValidCall(s.env, s.calls[c]);
    var after := Next(s, step).calls[c];
    assert Next(s, step).calls == s.calls[c := after] && CallWork(after) < CallWork(s.calls[c]);
    if c <= i {
      CallsWorkUpdate(s.calls[..i + 1], c, after);
      assert s.calls[c := after][..i + 1] == s.calls[..i + 1][c := after];
    } else {
      assert s.calls[c := after][..i + 1] == s.calls[..i + 1];
    }
  }

  /** No step of any kind puts more work before a call, and every step that serves it takes some away. */
  lemma StepWorksUpTo(s: State, step: Step, i: nat)
    requires Inv(s) && Enabled(s, step) && i < |s.calls|
    ensures i < |Next(s, step).calls| && i < |Next(s, step).tails|
    ensures WorkUpTo(Next(s, step), i) <= WorkUpTo(s, i)
    ensures Serves(step, i) ==> WorkUpTo(Next(s, step), i) < WorkUpTo(s, i)
  {
    match step
    case Enter(entries) =>
      assert Next(s, step).calls[..i + 1] == s.calls[..i + 1] && Next(s, step).tails[..i + 1] == s.tails[..i + 1];
    case WriteOutside(_, _) =>
    case ResolveTail(c) =>
      if c < i {
        TailsWorkUpdate(s.tails[..i + 1], c + 1);
        assert Next(s, step).tails[..i + 1] == s.tails[..i + 1][c + 1 := true];
      } else {
        assert Next(s, step).tails[..i + 1] == s.tails[..i + 1];
      }
    case Expire(_) => CallStepWorks(s, step, i);
    case Begin(_) => CallStepWorks(s, step, i);
    case Settle(_, _) => CallStepWorks(s, step, i);
  }

  ghost function Served(steps: seq<Step>, i: nat): nat {
    if steps == [] then 0 else (if Serves(steps[0], i) then 1 else 0) + Served(steps[1..], i)
  }

  /**
   In any run, with calls arriving and other code writing at will, the steps that serve a call
   are bounded by the work ahead of it at the start: later arrivals never delay it.
   */
  lemma {:induction false} RunBounded(s: State, steps: seq<Step>, i: nat)
    requires Inv(s) && Feasible(s, steps) && i < |s.calls|
    ensures Inv(After(s, steps)) && i < |After(s, steps).calls|
    ensures Served(steps, i) + WorkUpTo(After(s, steps), i) <= WorkUpTo(s, i) <= 4 * i + 3
    decreases |steps|
  {
    WorkUpToBound(s, i);
    if steps != [] {
      StepInv(s, steps[0]);
      StepWorksUpTo(s, steps[0], i);
      RunBounded(Next(s, steps[0]), steps[1..], i);
    }
  }

  /** What the runtime owes: due callbacks run, and operations that were started settle. */
  predicate Duty(step: Step) {
    step.Begin? || step.ResolveTail? || step.Settle?
  }

  /** As long as a tail has not resolved, something that serves the call is due. */
  lemma {:induction false} TailDue(s: State, i: nat) returns (step: Step)
    requires Inv(s) && i < |s.calls| && !s.tails[i]
    ensures Enabled(s, step) && Duty(step) && Serves(step, i)
  {
    var p := i - 1;
    if !s.tails[p] {
      step := TailDue(s, p);
    } else if s.calls[p].phase.Released? {
      step := ResolveTail(p);
    } else if s.calls[p].phase.Queued? {
      step := Begin(p);
    } else {
      step := Settle(p, Fulfilled(0));
    }
  }

  /** While a call is not over, a step that serves it is due: nothing blocks it but operations that do not settle. */
  lemma CallDue(s: State, i: nat) returns (step: Step)
    requires Inv(s) && i < |s.calls| && !s.calls[i].phase.Released?
    ensures Enabled(s, step) && Duty(step) && Serves(step, i)
  {
    if !s.tails[i] {
      step := TailDue(s, i);
    } else if s.calls[i].phase.Queued? {
      step := Begin(i);
    } else {
      step := Settle(i, Fulfilled(0));
    }
  }

  /** A call that is over has answered its caller, and it ran or timed out. */
  ghost predicate Ended(c: Call) {
    c.phase.Released? && !c.outcome.Pending? && (c.ran || c.timedOut)
  }

  /** A call ended in every run that leaves nothing due that serves it, whatever else is still going on. */
  lemma EveryCallEnds(s: State, steps: seq<Step>, i: nat)
    requires Inv(s) && Feasible(s, steps) && i < |s.calls|
    requires forall step :: Duty(step) && Serves(step, i) ==> !Enabled(After(s, steps), step)
    ensures i < |After(s, steps).calls| && Ended(After(s, steps).calls[i])
  {
    RunBounded(s, steps, i);
    var t := After(s, steps);
    if t.calls[i].phase.Released? {
      ReleasedEnded(t, i);
    }
    if !t.calls[i].phase.Released? {
      var step := CallDue(t, i);
      assert false;
    }
  }

  // Runs that never end

  /** An endless run: states, and the step taken in each. */
  ghost predicate Endless(run: nat -> State, taken: nat -> Step) {
    forall n: nat :: Enabled(run(n), taken(n)) && run(n + 1) == Next(run(n), taken(n))
  }

  /** The same callback; an operation may settle either way. */
  predicate Discharges(step: Step, duty: Step) {
    step == duty || (step.Settle? && duty.Settle? && step.call == duty.call)
  }

  /** A duty is discharged by the step itself, and the end of an operation by whatever it comes to. */
  lemma DutiesDischarged(step: Step, i: nat, a: Settlement, b: Settlement)
    ensures Discharges(step, step) && Discharges(Settle(i, a), Settle(i, b))
  {
  }

  ghost predicate DischargedFrom(taken: nat -> Step, n: nat, duty: Step) {
    exists m: nat :: n <= m && Discharges(taken(m), duty)
  }

  /** Due callbacks run some day, and operations that were started settle some day. */
  ghost predicate Fair(run: nat -> State, taken: nat -> Step) {
    forall n: nat, duty :: Duty(duty) && Enabled(run(n), duty) ==> DischargedFrom(taken, n, duty)
  }

  lemma {:induction false} EndlessInv(run: nat -> State, taken: nat -> Step, n: nat, m: nat, i: nat)
    requires Endless(run, taken) && Inv(run(n)) && i < |run(n).calls| && n <= m
    ensures Inv(run(m)) && i < |run(m).calls| && WorkUpTo(run(m), i) <= WorkUpTo(run(n), i)
    decreases m - n
  {
    if n < m {
      assert Enabled(run(n), taken(n)) && run(n + 1) == Next(run(n), taken(n));
      StepInv(run(n), taken(n));
      StepWorksUpTo(run(n), taken(n), i);
      EndlessInv(run, taken, n + 1, m, i);
    }
  }

  /**
   Liveness: in every fair endless run, however many calls keep arriving, each call ends some
   day: it ran, or it was skipped because its timer had fired.
   */
  lemma {:induction false} EveryCallEventuallyEnds(run: nat -> State, taken: nat -> Step, n: nat, i: nat)
    returns (m: nat)
    requires Endless(run, taken) && Fair(run, taken) && Inv(run(n)) && i < |run(n).calls|
    ensures n <= m && i < |run(m).calls| && Ended(run(m).calls[i])
    decreases WorkUpTo(run(n), i)
  {
    if run(n).calls[i].phase.Released? {
      ReleasedEnded(run(n), i);
      return n;
    }
    var k := ServedSomeDay(run, taken, n, i);
    m := EveryCallEventuallyEnds(run, taken, k, i);
  }

  lemma ReleasedEnded(s: State, i: nat)
    requires Inv(s) && i < |s.calls| && s.calls[i].phase.Released?
    ensures Ended(s.calls[i])
  {
    assert ValidCall(s.env, s.calls[i]);
  }

  /** A call that is not over is served some day. */
  lemma ServedSomeDay(run: nat -> State, taken: nat -> Step, n: nat, i: nat) returns (m: nat)
    requires Endless(run, taken) && Fair(run, taken) && Inv(run(n)) && i < |run(n).calls|
    requires !run(n).calls[i].phase.Released?
    ensures n < m && Inv(run(m)) && i < |run(m).calls| && WorkUpTo(run(m), i) < WorkUpTo(run(n), i)
  {
    var duty := CallDue(run(n), i);
    assert DischargedFrom(taken, n, duty);
    var k: nat :| n <= k && Discharges(taken(k), duty);
    EndlessInv(run, taken, n, k, i);
    assert Enabled(run(k), taken(k)) && run(k + 1) == Next(run(k), taken(k));
    StepInv(run(k), taken(k));
    StepWorksUpTo(run(k), taken(k), i);
    m := k + 1;
  }

  // The program

  datatype Rejection = ForbiddenKey(key: Key) | BadTimeout

  lemma BoundNext(entries: seq<Binding>, i: nat)
    requires Distinct(entries) && i < |entries|
    ensures Bound(entries[..i + 1]) == Bound(entries[..i])[entries[i].key := entries[i].value]
    ensures entries[i].key !in Bound(entries[..i])
  {
    BoundSnoc(entries[..i], entries[i]);
    assert entries[..i] + [entries[i]] == entries[..i + 1];
    forall k | 0 <= k < i ensures entries[..i][k].key != entries[i].key {
      assert entries[..i][k] == entries[k];
    }
  }

  lemma {:induction false} BoundSnoc(entries: seq<Binding>, e: Binding)
    requires forall i :: 0 <= i < |entries| ==> entries[i].key != e.key
    ensures Bound(entries + [e]) == Bound(entries)[e.key := e.value]
  {
    if entries != [] {
      BoundSnoc(entries[1..], e);
      assert (entries + [e])[1..] == entries[1..] + [e] && (entries + [e])[0] == entries[0];
    } else {
      assert (entries + [e])[1..] == [];
    }
  }

  lemma DistinctSorted(entries: seq<Binding>)
    requires Distinct(entries)
    ensures Distinct(Sort(BindingBefore, entries))
  {
    BeforeIsStrict();
    forall i, j | 0 <= i < j < |entries|
      ensures BindingBefore(entries[i], entries[j]) || BindingBefore(entries[j], entries[i])
    {
      BeforeTotal(entries[i].key, entries[j].key);
    }
    SortAscending(BindingBefore, entries);
    var sorted := Sort(BindingBefore, entries);
    forall i, j | 0 <= i < j < |sorted| ensures sorted[i].key != sorted[j].key {
      BeforeAsymmetric(sorted[i].key, sorted[j].key);
    }
  }

  /** Every binding is in force, and no other key has changed. */
  ghost predicate InForce(before: Env, after: Env, entries: seq<Binding>) {
    && (forall e :: e in entries ==> e.key in after && after[e.key] == e.value)
    && (forall k :: (forall e :: e in entries ==> e.key != k) ==> Lookup(after, k) == Lookup(before, k))
  }

  /** Every recorded key is as recorded, absent or with its value, and no other key has changed. */
  ghost predicate PutBack(before: Env, after: Env, previous: map<Key, Option<Text>>) {
    && (forall k :: k in previous ==> Lookup(after, k) == previous[k])
    && (forall k :: k !in previous ==> Lookup(after, k) == Lookup(before, k))
  }

  lemma {:induction false} BoundValues(entries: seq<Binding>)
    requires Distinct(entries)
    ensures forall e :: e in entries ==> e.key in Bound(entries) && Bound(entries)[e.key] == e.value
    ensures forall k :: k in Bound(entries) ==> exists e :: e in entries && e.key == k
  {
    forall e | e in entries ensures e.key in Bound(entries) && Bound(entries)[e.key] == e.value {
      var i :| 0 <= i < |entries| && entries[i] == e;
      if i > 0 {
        BoundValues(entries[1..]);
        assert entries[1..][i - 1] == e;
      }
    }
    forall k | k in Bound(entries) ensures exists e :: e in entries && e.key == k {
      var i :| 0 <= i < |entries| && entries[i].key == k;
      assert entries[i] in entries;
    }
  }

  lemma BindingsInForce(env: Env, entries: seq<Binding>)
    requires Distinct(entries)
    ensures InForce(env, env + Bound(entries), entries)
  {
    BoundValues(entries);
  }

  lemma EntriesPutBack(env: Env, previous: map<Key, Option<Text>>)
    ensures PutBack(env, Restored(env, previous), previous)
  {
  }

  /** The module's state: `process.env` and the promises of the calls made so far. */
  class VisualRunner {
    const allowed: set<Key>
    var env: Env
    var calls: seq<Call>
    var tails: seq<bool>

    ghost function View(): State
      reads this
    {
      State(env, calls, tails)
    }

    ghost predicate Valid()
      reads this
    {
      Inv(View())
    }

    constructor (allowed: set<Key>, env: Env)
      ensures Valid() && View() == Initial(env) && this.allowed == allowed
    {
      this.allowed := allowed;
      this.env := env;
      calls := [];
      tails := [true];
    }

    /** The synchronous part of a call: check the keys and the timeout, then join the chain. */
    method EnterCall(entries: seq<Binding>, timeoutMs: int) returns (r: Result<nat, Rejection>)
      requires Valid() && Distinct(entries)
      modifies this`calls, this`tails
      ensures Valid()
      ensures r.Success? <==> timeoutMs > 0 && forall e :: e in entries ==> e.key in allowed
      ensures Distinct(Sort(BindingBefore, entries))
      ensures r.Success? ==> r.value == old(|calls|) && View() == Next(old(View()), Enter(Sort(BindingBefore, entries)))
      ensures r.Failure? ==> View() == old(View())
      ensures r.Failure? && r.error.BadTimeout? ==> timeoutMs <= 0 && forall e :: e in entries ==> e.key in allowed
      ensures r.Failure? && r.error.ForbiddenKey? ==>
        r.error.key !in allowed && forall e :: e in entries && e.key !in allowed ==> !Before(e.key, r.error.key)
    {
      var sorted := Sort(BindingBefore, entries);
      DistinctSorted(entries);
      BeforeIsStrict();
      assert forall e :: e in sorted <==> e in entries by {
        forall e ensures e in sorted <==> e in entries { SameElements(sorted, entries, e); }
      }
      var i := 0;
      while i < |sorted|
        invariant 0 <= i <= |sorted|
        invariant forall k :: 0 <= k < i ==> sorted[k].key in allowed
      {
        if sorted[i].key !in allowed {
          LaterKeysNotBefore(entries, i);
          return Failure(ForbiddenKey(sorted[i].key));
        }
        i := i + 1;
      }
      if timeoutMs <= 0 {
        return Failure(BadTimeout);
      }
      EnterInv(View(), sorted);
      r := Success(|calls|);
      calls := calls + [Call(sorted, Queued, false, true, false, Pending)];
      tails := tails + [false];
    }

    /** The timer callback: give up on behalf of the caller, keep the lease. */
    method ExpireCall(i: nat)
      requires Valid() && Enabled(View(), Expire(i))
      modifies this`calls
      ensures Valid() && View() == Next(old(View()), Expire(i))
      ensures old(calls[i].outcome).Pending? && calls[i].outcome == TimedOut
      ensures calls[i].phase == old(calls[i].phase) && calls[i].ran == old(calls[i].ran)
      ensures forall j :: 0 <= j < |calls| && j != i ==> calls[j] == old(calls[j])
    {
      ExpireInv(View(), i);
      assert ValidCall(env, calls[i]);
      calls := calls[i := Expired(calls[i])];
    }

    /** Remembers what each key held, then binds it. */
    method ApplyEntries(entries: seq<Binding>) returns (previous: map<Key, Option<Text>>)
      requires Distinct(entries)
      modifies this`env
      ensures env == old(env) + Bound(entries)
      ensures previous == Captured(old(env), Bound(entries).Keys)
    {
      previous := map[];
      var n := 0;
      while n < |entries|
        invariant 0 <= n <= |entries|
        invariant env == old(env) + Bound(entries[..n])
        invariant previous == Captured(old(env), Bound(entries[..n]).Keys)
      {
        BoundNext(entries, n);
        var e := entries[n];
        ApplyOneMore(old(env), Bound(entries[..n]), e);
        previous := previous[e.key := Lookup(env, e.key)];
        env := env[e.key := e.value];
        n := n + 1;
      }
      assert entries[..n] == entries;
    }

    /** Puts every touched key back, or deletes it if it was absent. */
    method RestoreEntries(entries: seq<Binding>, previous: map<Key, Option<Text>>)
      requires Distinct(entries) && previous.Keys == Bound(entries).Keys
      modifies this`env
      ensures env == Restored(old(env), previous)
    {
      var n := 0;
      RestoreEnds(old(env), previous, entries);
      while n < |entries|
        invariant 0 <= n <= |entries|
        invariant env == Restored(old(env), Chosen(previous, Bound(entries[..n]).Keys))
      {
        RestoreStep(old(env), previous, entries, n);
        env := Assign(env, entries[n].key, previous[entries[n].key]);
        n := n + 1;
      }
      assert entries[..n] == entries;
    }

    /** The callback of the previous tail: skip a call that timed out, else apply its bindings. */
    method BeginCall(i: nat)
      requires Valid() && Enabled(View(), Begin(i))
      modifies this`calls, this`env
      ensures Valid() && View() == Next(old(View()), Begin(i))
      ensures calls[i].entries == old(calls[i].entries) && calls[i].outcome == old(calls[i].outcome)
      ensures old(calls[i].timedOut) ==> env == old(env) && calls[i].phase == Released && !calls[i].ran
      ensures !old(calls[i].timedOut) ==>
        && InForce(old(env), env, calls[i].entries) && calls[i].ran && calls[i].phase.Holding?
        && PutBack(env, old(env), calls[i].phase.previous)
      ensures forall j :: 0 <= j < |calls| && j != i ==> calls[j] == old(calls[j])
    {
      BeginInv(View(), i);
      var c := calls[i];
      assert ValidCall(env, c);
      if c.timedOut {
        calls := calls[i := c.(phase := Released)];
      } else {
        var previous := ApplyEntries(c.entries);
        BindingsInForce(old(env), c.entries);
        calls := calls[i := c.(phase := Holding(previous), ran := true)];
      }
    }

    /** The operation settled: restore, release, and answer a caller still waiting. */
    method SettleCall(i: nat, settlement: Settlement)
      requires Valid() && Enabled(View(), Settle(i, settlement))
      modifies this`calls, this`env
      ensures Valid() && View() == Next(old(View()), Settle(i, settlement))
      ensures calls[i].outcome == if old(calls[i].outcome).Pending? then Settled(settlement) else TimedOut
      ensures calls[i].phase == Released && !calls[i].timerArmed && calls[i].ran
      ensures PutBack(old(env), env, old(calls[i].phase.previous))
      ensures forall j :: 0 <= j < |calls| && j != i ==> calls[j] == old(calls[j])
    {
      SettleInv(View(), i, settlement);
      var c := calls[i];
      assert ValidCall(env, c);
      RestoreEntries(c.entries, c.phase.previous);
      EntriesPutBack(old(env), c.phase.previous);
      calls := calls[i := Finished(c, settlement)];
    }

    /** `previousLease.then(() => lease)` resolves once the lease it waits for is released. */
    method ResolveTailOf(i: nat)
      requires Valid() && Enabled(View(), ResolveTail(i))
      modifies this`tails
      ensures Valid() && View() == Next(old(View()), ResolveTail(i))
      ensures forall j :: 0 <= j <= i ==> calls[j].phase.Released?
      ensures i + 1 < |calls| ==> calls[i + 1].phase.Queued? && Enabled(View(), Begin(i + 1))
    {
      forall j | 0 <= j < i ensures calls[j].phase.Released? {
        TailOrdersCalls(View(), j, i);
      }
      StepInv(View(), ResolveTail(i));
      tails := tails[i + 1 := true];
    }
  }

  lemma LaterKeysNotBefore(entries: seq<Binding>, i: nat)
    requires Distinct(entries) && i < |Sort(BindingBefore, entries)|
    requires forall k :: 0 <= k < i ==> Sort(BindingBefore, entries)[k] != Sort(BindingBefore, entries)[i]
    ensures forall k :: i <= k < |entries| ==>
      !Before(Sort(BindingBefore, entries)[k].key, Sort(BindingBefore, entries)[i].key)
  {
    BeforeIsStrict();
    forall i, j | 0 <= i < j < |entries|
      ensures BindingBefore(entries[i], entries[j]) || BindingBefore(entries[j], entries[i])
    {
      BeforeTotal(entries[i].key, entries[j].key);
    }
    SortAscending(BindingBefore, entries);
  }

  lemma ApplyOneMore(env: Env, bound: Env, e: Binding)
    requires e.key !in bound
    ensures Lookup(env + bound, e.key) == Lookup(env, e.key)
    ensures (env + bound)[e.key := e.value] == env + bound[e.key := e.value]
    ensures Captured(env, bound.Keys)[e.key := Lookup(env, e.key)] == Captured(env, bound[e.key := e.value].Keys)
  {
  }

  function Chosen(previous: map<Key, Option<Text>>, keys: set<Key>): map<Key, Option<Text>> {
    map k | k in keys && k in previous :: previous[k]
  }

  lemma RestoreOneMore(env: Env, previous: map<Key, Option<Text>>, keys: set<Key>, key: Key)
    requires key in previous && key !in keys
    ensures Restored(env, Chosen(previous, keys + {key})) ==
      Assign(Restored(env, Chosen(previous, keys)), key, previous[key])
  {
  }

  lemma RestoreStep(env: Env, previous: map<Key, Option<Text>>, entries: seq<Binding>, n: nat)
    requires Distinct(entries) && previous.Keys == Bound(entries).Keys && n < |entries|
    ensures entries[n].key in previous
    ensures Restored(env, Chosen(previous, Bound(entries[..n + 1]).Keys))
         == Assign(Restored(env, Chosen(previous, Bound(entries[..n]).Keys)), entries[n].key, previous[entries[n].key])
  {
    BoundNext(entries, n);
    var key := entries[n].key;
    assert key in Bound(entries);
    RestoreOneMore(env, previous, Bound(entries[..n]).Keys, key);
    assert Bound(entries[..n + 1]).Keys == Bound(entries[..n]).Keys + {key};
  }

  lemma RestoreEnds(env: Env, previous: map<Key, Option<Text>>, entries: seq<Binding>)
    requires previous.Keys == Bound(entries).Keys
    ensures Restored(env, Chosen(previous, Bound(entries[..0]).Keys)) == env
    ensures Chosen(previous, Bound(entries).Keys) == previous
  {
    assert Bound(entries[..0]) == map[];
  }
}
