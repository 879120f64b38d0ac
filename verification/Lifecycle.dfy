/** The public service as threads run it (service.go:75-183): one lock (`opMu`) held for a whole
    operation, another (`mu`) for each short look at or change of the status. Every section under
    `mu` and every call into the runtime begins or ends at one step; between steps any other
    thread may move. */
module Lifecycle {
  import opened Sources
  import AppRuntime

  datatype Phase = Stopped | Starting | Ready | Degraded | Reloading | Stopping | Failed

  /** The mutable part of the status; a source is listed with whether it is ready. */
  datatype Status = Status(phase: Phase, endpoint: string, sources: seq<bool>, lastError: string)

  const INITIAL := Status(Stopped, "", [], "")

  datatype Operation = Start | Reload | Stop

  type Ending = AppRuntime.ReloadResult

  /** What a runtime call comes back with. For a reload that failed, `ending` says how the runtime
      ended it; other operations do not look at it. */
  datatype Result = Succeeded(endpoint: string) | Errored(message: string, ending: Ending)

  /** How a reload ended, as the runtime knows it. */
  function EndingOf(result: Result): Ending {
    if result.Succeeded? then AppRuntime.Reloaded else result.ending
  }

  /** Where a thread is. `before` is the status its operation found. */
  datatype Pc =
    | Idle
    | Waiting(op: Operation)
    | Locked(op: Operation)
    | Calling(op: Operation, before: Status)
    | Returned(op: Operation, before: Status, result: Result)
    | Reporting(seen: Status)

  /** `session`: the last runtime start succeeded and no runtime stop was begun since.
      `alive`: the runtime has a running engine. */
  datatype State = State(status: Status, holder: Option<int>, threads: map<int, Pc>, session: bool, alive: bool)

  function At(s: State, t: int): Pc { if t in s.threads then s.threads[t] else Idle }

  function Moved(s: State, t: int, pc: Pc): State { s.(threads := s.threads[t := pc]) }

  datatype Step =
    | Call(t: int, op: Operation)
    | Lock(t: int)
    | Begin(t: int)
    | Return(t: int, result: Result)
    | Finish(t: int, sources: seq<bool>)
    | ReadStatus(t: int)
    | AnswerStatus(t: int)

  // ---------------------------------------------------------------- one step

  predicate Admits(op: Operation, phase: Phase) {
    match op
    case Start => phase == Stopped || phase == Failed
    case Reload => phase == Ready || phase == Degraded
    case Stop => phase != Stopped
  }

  function Transient(op: Operation): Phase {
    match op
    case Start => Starting
    case Reload => Reloading
    case Stop => Stopping
  }

  function Announced(op: Operation, status: Status): Status {
    if op == Start then status.(phase := Starting, lastError := "") else status.(phase := Transient(op))
  }

  predicate AllReady(sources: seq<bool>) { forall i :: 0 <= i < |sources| ==> sources[i] }

  function Health(sources: seq<bool>): Phase { if AllReady(sources) then Ready else Degraded }

  /** The status an operation leaves, given the status it runs under. */
  function Concluded(op: Operation, before: Status, result: Result, sources: seq<bool>, status: Status): Status {
    match op
    case Start =>
      if result.Errored? then status.(phase := Failed, lastError := result.message)
      else status.(phase := Health(sources), endpoint := result.endpoint, sources := sources)
    case Reload =>
      if result.Errored? then status.(phase := before.phase, lastError := result.message)
      else status.(phase := Health(sources), lastError := "", sources := sources)
    case Stop =>
      if result.Errored? then status.(phase := Failed, lastError := result.message) else INITIAL
  }

  /** The state after a step, if the step can be taken. */
  function Next(s: State, step: Step): Option<State> {
    var pc := At(s, step.t);
    match step
    case Call(t, op) => if pc.Idle? then Some(Moved(s, t, Waiting(op))) else None
    case Lock(t) =>
      if pc.Waiting? && s.holder.None? then Some(Moved(s, t, Locked(pc.op)).(holder := Some(t))) else None
    case Begin(t) =>
      if !pc.Locked? then None
      else if !Admits(pc.op, s.status.phase) then Some(Moved(s, t, Idle).(holder := None))
      else Some(Moved(s, t, Calling(pc.op, s.status)).(
        status := Announced(pc.op, s.status), session := s.session && pc.op != Stop))
    case Return(t, result) =>
      if !pc.Calling? || (result.Errored? && result.ending.Reloaded?) then None
      else Some(Moved(s, t, Returned(pc.op, pc.before, result)).(
        session := s.session || (pc.op == Start && result.Succeeded?),
        alive := match pc.op
          case Start => result.Succeeded?
          case Reload => AppRuntime.RunsAfter(EndingOf(result), s.alive)
          case Stop => false))
    case Finish(t, sources) =>
      if !pc.Returned? then None
      else Some(Moved(s, t, Idle).(
        status := Concluded(pc.op, pc.before, pc.result, sources, s.status), holder := None))
    case ReadStatus(t) => if pc.Idle? then Some(Moved(s, t, Reporting(s.status))) else None
    case AnswerStatus(t) => if pc.Reporting? then Some(Moved(s, t, Idle)) else None
  }

  /** What `Status()` answers from the status it saw and the sources it then asked for. */
  function Answer(seen: Status, sources: seq<bool>): Status {
    if seen.phase == Ready || seen.phase == Degraded then seen.(phase := Health(sources), sources := sources) else seen
  }

  // ---------------------------------------------------------------- the invariant

  predicate InOperation(pc: Pc) { pc.Locked? || pc.Calling? || pc.Returned? }

  predicate InFlight(pc: Pc) { pc.Calling? || pc.Returned? }

  ghost predicate Inv(s: State) {
    && (forall t :: InOperation(At(s, t)) <==> s.holder == Some(t))
    && (forall t :: InFlight(At(s, t)) ==>
          && s.status == Announced(At(s, t).op, At(s, t).before)
          && Admits(At(s, t).op, At(s, t).before.phase)
          && At(s, t).before.phase in {Stopped, Ready, Degraded, Failed})
    && (s.status.phase in {Starting, Reloading, Stopping} <==> s.holder.Some? && InFlight(At(s, s.holder.value)))
    && (s.session <==> || s.status.phase in {Ready, Degraded, Reloading}
                       || (s.holder.Some? && At(s, s.holder.value).Returned? && At(s, s.holder.value).op == Start
                           && At(s, s.holder.value).result.Succeeded?))
    && (s.alive ==> s.session || (s.holder.Some? && At(s, s.holder.value).Calling? && At(s, s.holder.value).op == Stop))
  }

  const FRESH := State(INITIAL, None, map[], false, false)

  lemma StepKeepsInv(s: State, step: Step)
    requires Inv(s) && Next(s, step).Some?
    ensures Inv(Next(s, step).value)
  {
    var t := step.t;
    var s' := Next(s, step).value;
    assert forall u :: u != t ==> At(s', u) == At(s, u);
    assert s.holder == Some(t) <==> InOperation(At(s, t));
    match step
    case Call(_, _) =>
    case Lock(_) =>
    case Begin(_) =>
    case Return(_, _) =>
    case Finish(_, _) =>
    case ReadStatus(_) =>
    case AnswerStatus(_) =>
  }

  /** A run: the states threads take the service through from a fresh start. */
  ghost predicate Run(trace: seq<State>, steps: seq<Step>) {
    && |trace| == |steps| + 1 && trace[0] == FRESH
    && forall i :: 0 <= i < |steps| ==> Next(trace[i], steps[i]) == Some(trace[i + 1])
  }

  lemma {:induction false} RunKeepsInv(trace: seq<State>, steps: seq<Step>, i: nat)
    requires Run(trace, steps) && i < |trace|
    ensures Inv(trace[i])
  {
    if i > 0 {
      RunKeepsInv(trace, steps, i - 1);
      assert Next(trace[i - 1], steps[i - 1]) == Some(trace[i]);
      StepKeepsInv(trace[i - 1], steps[i - 1]);
    }
  }

  // ---------------------------------------------------------------- what runs guarantee

  /** Whatever the interleaving, runtime calls never overlap; the status shows a transient phase
      exactly while an operation is in flight, and then that operation's; otherwise it is
      stopped, ready, degraded or failed. */
  lemma OperationsNeverOverlap(trace: seq<State>, steps: seq<Step>, i: nat)
    requires Run(trace, steps) && i < |trace|
    ensures forall t, u :: InFlight(At(trace[i], t)) && InFlight(At(trace[i], u)) ==> t == u
    ensures forall t :: InFlight(At(trace[i], t)) ==> trace[i].status.phase == Transient(At(trace[i], t).op)
    ensures (forall t :: !InFlight(At(trace[i], t))) ==> trace[i].status.phase in {Stopped, Ready, Degraded, Failed}
  {
    RunKeepsInv(trace, steps, i);
    var p := trace[i].status.phase;
    assert p.Stopped? || p.Starting? || p.Ready? || p.Degraded? || p.Reloading? || p.Stopping? || p.Failed?;
    if trace[i].holder.Some? {
      var u := trace[i].holder.value;
      assert InOperation(At(trace[i], u));
    }
  }

  predicate StartSucceeds(s: State, step: Step) {
    step.Return? && At(s, step.t).Calling? && At(s, step.t).op == Start && step.result.Succeeded?
  }

  predicate StopsRuntime(s: State, step: Step) {
    step.Begin? && At(s, step.t).Locked? && At(s, step.t).op == Stop && s.status.phase != Stopped
  }

  ghost predicate StartedBefore(trace: seq<State>, steps: seq<Step>, i: nat)
    requires Run(trace, steps) && i < |trace|
  {
    exists k :: 0 <= k < i && StartSucceeds(trace[k], steps[k])
      && forall m :: k < m < i ==> !StopsRuntime(trace[m], steps[m])
  }

  lemma {:induction false} SessionMeansStarted(trace: seq<State>, steps: seq<Step>, i: nat)
    requires Run(trace, steps) && i < |trace| && trace[i].session
    ensures StartedBefore(trace, steps, i)
  {
    if i > 0 {
      var s, step := trace[i - 1], steps[i - 1];
      assert Next(s, step) == Some(trace[i]);
      if StartSucceeds(s, step) {
        assert StartSucceeds(trace[i - 1], steps[i - 1]);
      } else {
        assert s.session && !StopsRuntime(s, step);
        SessionMeansStarted(trace, steps, i - 1);
        var k :| 0 <= k < i - 1 && StartSucceeds(trace[k], steps[k])
          && forall m :: k < m < i - 1 ==> !StopsRuntime(trace[m], steps[m]);
        assert forall m :: k < m < i ==> !StopsRuntime(trace[m], steps[m]);
      }
    }
  }

  /** The runtime is reloaded only after a successful start with no stop begun since, and it is
      started only while no engine of it runs. */
  lemma RuntimeCallsAreInOrder(trace: seq<State>, steps: seq<Step>, i: nat, t: int)
    requires Run(trace, steps) && i < |trace| && At(trace[i], t).Calling?
    ensures At(trace[i], t).op == Reload ==> StartedBefore(trace, steps, i)
    ensures At(trace[i], t).op == Start ==> !trace[i].alive
  {
    RunKeepsInv(trace, steps, i);
    if At(trace[i], t).op == Reload {
      SessionMeansStarted(trace, steps, i);
    }
  }

  /** Which operations are let through: a start on a stopped or failed service, a reload on a ready
      or degraded one, a stop on any that is not stopped. A refused one changes nothing but the
      lock. */
  lemma RefusedOperationChangesNothing(s: State, t: int)
    requires At(s, t).Locked?
    ensures var allowed := match At(s, t).op
              case Start => s.status.phase in {Stopped, Failed}
              case Reload => s.status.phase in {Ready, Degraded}
              case Stop => s.status.phase in {Starting, Ready, Degraded, Reloading, Stopping, Failed};
            var s' := Next(s, Begin(t)).value;
            && (At(s', t).Calling? <==> allowed)
            && (!allowed ==> s'.status == s.status && s'.session == s.session && s'.alive == s.alive && At(s', t).Idle?)
  {
    var p := s.status.phase;
    assert p.Stopped? || p.Starting? || p.Ready? || p.Degraded? || p.Reloading? || p.Stopping? || p.Failed?;
  }

  /** After a successful start or reload the service is ready if every source is, and degraded as
      soon as one is not. */
  lemma OneUnavailableSourceDegrades(trace: seq<State>, steps: seq<Step>, j: nat, t: int, sources: seq<bool>)
    requires Run(trace, steps) && j < |steps| && steps[j] == Finish(t, sources)
    requires At(trace[j], t).Returned? && At(trace[j], t).op != Stop && At(trace[j], t).result.Succeeded?
    ensures trace[j + 1].status.phase == if exists i :: 0 <= i < |sources| && !sources[i] then Degraded else Ready
  {
    assert Next(trace[j], steps[j]) == Some(trace[j + 1]);
    if exists i :: 0 <= i < |sources| && !sources[i] {
      assert !AllReady(sources);
    }
  }

  /** The step at which thread `t` began the operation it is in at `j`. */
  ghost predicate BegunAt(trace: seq<State>, steps: seq<Step>, i: nat, j: nat, t: int)
    requires Run(trace, steps) && j < |trace| && InFlight(At(trace[j], t))
  {
    i < j && steps[i] == Begin(t) && trace[i].status == At(trace[j], t).before
    && forall m :: i < m <= j ==> InFlight(At(trace[m], t))
  }

  lemma {:induction false} OperationBegan(trace: seq<State>, steps: seq<Step>, j: nat, t: int) returns (i: nat)
    requires Run(trace, steps) && j < |trace| && InFlight(At(trace[j], t))
    ensures BegunAt(trace, steps, i, j, t)
  {
    var s, step := trace[j - 1], steps[j - 1];
    assert Next(s, step) == Some(trace[j]);
    if InFlight(At(s, t)) {
      i := OperationBegan(trace, steps, j - 1, t);
      assert At(trace[j], t).before == At(s, t).before;
    } else {
      i := j - 1;
    }
  }

  /** What an operation leaves, compared with the status it found when it began: a failed reload
      changes nothing but the last error; a failed start or stop leaves the service failed; a
      success reports the sources' health, and a stop forgets everything. */
  lemma OperationEffects(trace: seq<State>, steps: seq<Step>, j: nat, t: int, sources: seq<bool>) returns (i: nat)
    requires Run(trace, steps) && j < |steps| && steps[j] == Finish(t, sources)
    requires At(trace[j], t).Returned?
    ensures BegunAt(trace, steps, i, j, t)
    ensures var before, now, result := trace[i].status, trace[j + 1].status, At(trace[j], t).result;
            match (At(trace[j], t).op, result)
            case (Reload, Errored(m, _)) => now == before.(lastError := m)
            case (_, Errored(m, _)) => now == before.(phase := Failed, lastError := m)
            case (Start, Succeeded(e)) => now == Status(Health(sources), e, sources, "")
            case (Reload, Succeeded(_)) => now == Status(Health(sources), before.endpoint, sources, "")
            case (Stop, Succeeded(_)) => now == INITIAL
  {
    i := OperationBegan(trace, steps, j, t);
    RunKeepsInv(trace, steps, j);
    assert Next(trace[j], steps[j]) == Some(trace[j + 1]);
  }

  /** A status report shows a transient phase only if that operation was in flight when it
      looked; a ready or degraded service is judged by the sources it is given, and any other status
      is reported as it was seen. */
  lemma ReportsAreHonest(trace: seq<State>, steps: seq<Step>, i: nat, t: int, sources: seq<bool>)
    requires Run(trace, steps) && i < |steps| && steps[i] == ReadStatus(t)
    ensures At(trace[i + 1], t) == Reporting(trace[i].status)
    ensures Answer(trace[i].status, sources).phase in {Starting, Reloading, Stopping} <==>
              exists u :: InFlight(At(trace[i], u))
                && Answer(trace[i].status, sources).phase ==
                     match At(trace[i], u).op case Start => Starting case Reload => Reloading case Stop => Stopping
    ensures trace[i].status.phase in {Ready, Degraded} ==>
              Answer(trace[i].status, sources) ==
                Status(if exists k :: 0 <= k < |sources| && !sources[k] then Degraded else Ready,
                       trace[i].status.endpoint, sources, trace[i].status.lastError)
    ensures trace[i].status.phase !in {Ready, Degraded} ==> Answer(trace[i].status, sources) == trace[i].status
  {
    assert (exists k :: 0 <= k < |sources| && !sources[k]) ==> !AllReady(sources);
    RunKeepsInv(trace, steps, i);
    assert Next(trace[i], steps[i]) == Some(trace[i + 1]);
    if trace[i].status.phase in {Starting, Reloading, Stopping} {
      var u := trace[i].holder.value;
      assert InFlight(At(trace[i], u));
    }
  }

  // ---------------------------------------------------------------- a lost engine

  predicate LosesEngine(s: State, step: Step) {
    step.Return? && At(s, step.t).Calling? && At(s, step.t).op == Reload && EndingOf(step.result).Lost?
  }

  predicate RevivesEngine(s: State, step: Step) {
    || StartSucceeds(s, step)
    || (step.Return? && At(s, step.t).Calling? && At(s, step.t).op == Reload
        && (EndingOf(step.result).Reloaded? || EndingOf(step.result).Restored?))
  }

  /** Some reload lost the engine, and no start or reload has brought one back since. */
  ghost predicate EngineLost(trace: seq<State>, steps: seq<Step>, i: nat)
    requires Run(trace, steps) && i < |trace|
  {
    exists m :: 0 <= m < i && LosesEngine(trace[m], steps[m])
      && forall k :: m < k < i ==> !RevivesEngine(trace[k], steps[k])
  }

  /** Within a session an engine runs exactly if none was lost for good. */
  lemma {:induction false} SessionRunsUnlessLost(trace: seq<State>, steps: seq<Step>, i: nat)
    requires Run(trace, steps) && i < |trace| && trace[i].session
    ensures trace[i].alive <==> !EngineLost(trace, steps, i)
  {
    if i > 0 {
      var s, step := trace[i - 1], steps[i - 1];
      assert Next(s, step) == Some(trace[i]);
      RunKeepsInv(trace, steps, i - 1);
      if LosesEngine(s, step) {
        assert LosesEngine(trace[i - 1], steps[i - 1]);
      } else if RevivesEngine(s, step) {
        assert RevivesEngine(trace[i - 1], steps[i - 1]);
      } else {
        SessionRunsUnlessLost(trace, steps, i - 1);
        LostGoesOn(trace, steps, i);
      }
    }
  }

  lemma LostGoesOn(trace: seq<State>, steps: seq<Step>, i: nat)
    requires Run(trace, steps) && 0 < i < |trace|
    requires !LosesEngine(trace[i - 1], steps[i - 1]) && !RevivesEngine(trace[i - 1], steps[i - 1])
    ensures EngineLost(trace, steps, i) <==> EngineLost(trace, steps, i - 1)
  {
  }

  /** A service that calls itself ready or degraded has a running engine if and only if no reload
      lost it without a later start, reload or restore bringing one back. */
  lemma ReadyMeansRunning(trace: seq<State>, steps: seq<Step>, i: nat)
    requires Run(trace, steps) && i < |trace| && trace[i].status.phase in {Ready, Degraded}
    ensures trace[i].alive <==> !EngineLost(trace, steps, i)
  {
    RunKeepsInv(trace, steps, i);
    SessionRunsUnlessLost(trace, steps, i);
  }

  /** One operation carried out by thread 0 with nothing in between. */
  function StepsOf(op: Operation, result: Result): seq<Step> {
    [Call(0, op), Lock(0), Begin(0), Return(0, result), Finish(0, [])]
  }

  lemma Undisturbed(s: State, op: Operation, result: Result) returns (states: seq<State>)
    requires At(s, 0).Idle? && s.holder.None? && Admits(op, s.status.phase)
    requires result.Errored? ==> !result.ending.Reloaded?
    ensures |states| == 5 && Next(s, Call(0, op)) == Some(states[0])
    ensures forall i :: 0 <= i < 4 ==> Next(states[i], StepsOf(op, result)[i + 1]) == Some(states[i + 1])
    ensures At(states[4], 0).Idle? && states[4].holder.None?
    ensures states[4].status == Concluded(op, s.status, result, [], Announced(op, s.status))
    ensures op == Start && result.Succeeded? ==> states[4].alive
    ensures op == Reload ==> states[4].alive == AppRuntime.RunsAfter(EndingOf(result), s.alive)
  {
    var s1 := Moved(s, 0, Waiting(op));
    var s2 := Moved(s1, 0, Locked(op)).(holder := Some(0));
    var s3 := Next(s2, Begin(0)).value;
    assert At(s3, 0) == Calling(op, s.status);
    var s4 := Next(s3, Return(0, result)).value;
    assert At(s4, 0) == Returned(op, s.status, result);
    var s5 := Next(s4, Finish(0, [])).value;
    states := [s1, s2, s3, s4, s5];
  }

  /** A start and two reloads: the first loses the engine and leaves the service ready without one,
      the second goes through and brings one back. */
  lemma ReadyWithoutEngine() returns (trace: seq<State>, steps: seq<Step>)
    ensures Run(trace, steps) && |steps| == 15
    ensures trace[10].status.phase == Ready && !trace[10].alive
    ensures trace[15].status.phase == Ready && trace[15].alive
  {
    hide Next, Announced;
    var lost := Errored("m", AppRuntime.Lost);
    var up := Undisturbed(FRESH, Start, Succeeded("e"));
    assert AllReady([]) && up[4].status.phase == Ready;
    var down := Undisturbed(up[4], Reload, lost);
    var again := Undisturbed(down[4], Reload, Succeeded("e"));
    trace := [FRESH] + up + down + again;
    steps := StepsOf(Start, Succeeded("e")) + StepsOf(Reload, lost) + StepsOf(Reload, Succeeded("e"));
    forall i | 0 <= i < |steps| ensures Next(trace[i], steps[i]) == Some(trace[i + 1]) {
      if i < 5 {
        assert steps[i] == StepsOf(Start, Succeeded("e"))[i];
      } else if i < 10 {
        assert steps[i] == StepsOf(Reload, lost)[i - 5];
      } else {
        assert steps[i] == StepsOf(Reload, Succeeded("e"))[i - 10];
      }
    }
  }
}
