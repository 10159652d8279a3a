/** The Start/Stop/Cron protocol of StockUpdateWorker: any number of calling threads and detached worker
    threads, interleaved step by step around one mutex. */
module WorkerProtocol {
  import opened Text

  datatype Config = Config(sourceURL: string, interval: int, tempFile: string)

  datatype Call = SetSourceURL(url: string) | SetInterval(interval: int) | SetTempFile(file: string)
                | Start | Stop | Query

  /** Where a worker thread is in Cron. */
  datatype Pc =
    | Initial   // created; sleeps first unless StartImmediately
    | Waiting   // about to lock the mutex
    | Updating  // inside Update, holding the mutex
    | Updated   // Update has returned, the mutex is still held
    | Sleeping  // between two rounds
    | Ended

  datatype Holder = Nobody | Worker(id: nat) | Caller(call: Call, done: bool)

  /** `handle` is the thread owned by WorkerThread; `asked` the threads on which interrupt() was called. */
  datatype State = State(running: bool, config: Config, workers: seq<Pc>, handle: Option<nat>, asked: set<nat>,
                         mutex: Holder)

  datatype Step =
    | Lock(call: Call) | Body | Unlock                              // a caller's critical section
    | Wake(id: nat) | Interrupted(id: nat)                          // a worker's sleep ends
    | Acquire(id: nat) | FinishUpdate(id: nat) | Check(id: nat)     // a worker's round

  function InitialState(config: Config): State {
    State(false, config, [], None, {}, Nobody)
  }

  /** The critical section of each public method. */
  function Effect(s: State, call: Call): State {
    match call
    case SetSourceURL(url) => if s.running then s else s.(config := s.config.(sourceURL := url))
    case SetInterval(n) => if s.running then s else s.(config := s.config.(interval := n))
    case SetTempFile(file) => if s.running then s else s.(config := s.config.(tempFile := file))
    case Start =>
      if s.running then s else s.(running := true, workers := s.workers + [Initial], handle := Some(|s.workers|))
    case Stop =>
      if !s.running then s
      else s.(running := false, handle := None, asked := s.asked + if s.handle.Some? then {s.handle.value} else {})
    case Query => s
  }

  function Set(s: State, id: nat, pc: Pc, mutex: Holder): State
    requires id < |s.workers|
  {
    s.(workers := s.workers[id := pc], mutex := mutex)
  }

  /** One atomic step; None when it is not enabled. A request to interrupt may be delivered at a sleep or
      never: the thread was detached before interrupt() is called. */
  function Next(immediately: bool, s: State, step: Step): Option<State> {
    match step
    case Lock(call) => if s.mutex == Nobody then Some(s.(mutex := Caller(call, false))) else None
    case Body =>
      if s.mutex.Caller? && !s.mutex.done
      then Some(Effect(s, s.mutex.call).(mutex := Caller(s.mutex.call, true)))
      else None
    case Unlock => if s.mutex.Caller? && s.mutex.done then Some(s.(mutex := Nobody)) else None
    case Wake(id) =>
      if id < |s.workers| && s.workers[id] in {Initial, Sleeping} then Some(Set(s, id, Waiting, s.mutex)) else None
    case Interrupted(id) =>
      if id < |s.workers| && id in s.asked && (s.workers[id] == Sleeping || (s.workers[id] == Initial && !immediately))
      then Some(Set(s, id, Ended, s.mutex))
      else None
    case Acquire(id) =>
      if id < |s.workers| && s.workers[id] == Waiting && s.mutex == Nobody
      then Some(Set(s, id, Updating, Worker(id)))
      else None
    case FinishUpdate(id) =>
      if id < |s.workers| && s.workers[id] == Updating then Some(Set(s, id, Updated, s.mutex)) else None
    case Check(id) =>
      if id < |s.workers| && s.workers[id] == Updated
      then Some(Set(s, id, if s.running then Sleeping else Ended, Nobody))
      else None
  }

  function Run(immediately: bool, s: State, steps: seq<Step>): Option<State>
    decreases |steps|
  {
    if steps == [] then Some(s)
    else
      match Next(immediately, s, steps[0])
      case None => None
      case Some(t) => Run(immediately, t, steps[1..])
  }

  // ---------- Mutual exclusion ----------

  ghost predicate Inv(s: State) {
    (s.mutex.Worker? ==> s.mutex.id < |s.workers|) &&
    forall i :: 0 <= i < |s.workers| ==> (s.workers[i] in {Updating, Updated} <==> s.mutex == Worker(i))
  }

  lemma StepKeepsInv(immediately: bool, s: State, step: Step)
    requires Inv(s) && Next(immediately, s, step).Some?
    ensures Inv(Next(immediately, s, step).value)
  {
  }

  lemma {:induction false} RunKeepsInv(immediately: bool, s: State, steps: seq<Step>)
    requires Inv(s) && Run(immediately, s, steps).Some?
    ensures Inv(Run(immediately, s, steps).value)
    decreases |steps|
  {
    if steps != [] {
      StepKeepsInv(immediately, s, steps[0]);
      RunKeepsInv(immediately, Next(immediately, s, steps[0]).value, steps[1..]);
    }
  }

  /** In every reachable state at most one thread is inside Update, and it holds the mutex. */
  lemma {:induction false} MutualExclusion(immediately: bool, config: Config, steps: seq<Step>, i: nat, j: nat)
    requires Run(immediately, InitialState(config), steps).Some?
    ensures var s := Run(immediately, InitialState(config), steps).value;
            i < |s.workers| && j < |s.workers| && s.workers[i] == Updating && s.workers[j] == Updating ==>
              i == j && s.mutex == Worker(i)
  {
    RunKeepsInv(immediately, InitialState(config), steps);
  }

  // ---------- Frozen settings ----------

  predicate Frozen(s: State) {
    s.running || exists i :: 0 <= i < |s.workers| && s.workers[i] == Updating
  }

  predicate FrozenThroughout(immediately: bool, s: State, steps: seq<Step>)
    decreases |steps|
  {
    steps != [] ==>
      Frozen(s) && (Next(immediately, s, steps[0]).Some? ==>
                    FrozenThroughout(immediately, Next(immediately, s, steps[0]).value, steps[1..]))
  }

  lemma {:induction false} FrozenSettings(immediately: bool, s: State, steps: seq<Step>)
    requires Inv(s) && Run(immediately, s, steps).Some? && FrozenThroughout(immediately, s, steps)
    ensures Run(immediately, s, steps).value.config == s.config
    decreases |steps|
  {
    if steps != [] {
      var t := Next(immediately, s, steps[0]).value;
      StepKeepsInv(immediately, s, steps[0]);
      if !s.running {
        var i :| 0 <= i < |s.workers| && s.workers[i] == Updating;
        assert s.mutex == Worker(i);
      }
      FrozenSettings(immediately, t, steps[1..]);
    }
  }

  /** From any reachable state on, SourceURL, Interval and TempFile keep their values for as long as
      Running holds or some worker is inside Update. */
  lemma {:induction false} SettingsAreFrozen(immediately: bool, config: Config, before: seq<Step>, steps: seq<Step>)
    requires Run(immediately, InitialState(config), before).Some?
    requires var s := Run(immediately, InitialState(config), before).value;
             Run(immediately, s, steps).Some? && FrozenThroughout(immediately, s, steps)
    ensures var s := Run(immediately, InitialState(config), before).value;
            Run(immediately, s, steps).value.config == s.config
  {
    RunKeepsInv(immediately, InitialState(config), before);
    FrozenSettings(immediately, Run(immediately, InitialState(config), before).value, steps);
  }

  // ---------- How many workers can be alive ----------

  function Live(workers: seq<Pc>): nat {
    if workers == [] then 0 else (if workers[0] != Ended then 1 else 0) + Live(workers[1..])
  }

  predicate StopsWorker(s: State, step: Step) {
    step == Body && s.mutex == Caller(Stop, false) && s.running
  }

  /** The Stop calls of a run that found the worker running. */
  function EffectiveStops(immediately: bool, s: State, steps: seq<Step>): nat
    decreases |steps|
  {
    if steps == [] then 0
    else
      (if StopsWorker(s, steps[0]) then 1 else 0) +
      match Next(immediately, s, steps[0])
      case None => 0
      case Some(t) => EffectiveStops(immediately, t, steps[1..])
  }

  lemma {:induction false} LiveAtMostAll(workers: seq<Pc>)
    ensures Live(workers) <= |workers|
  {
    if workers != [] { LiveAtMostAll(workers[1..]); }
  }

  lemma {:induction false} WorkersStarted(immediately: bool, s: State, steps: seq<Step>)
    requires Run(immediately, s, steps).Some?
    ensures var t := Run(immediately, s, steps).value;
            |t.workers| + (if s.running then 1 else 0) ==
            |s.workers| + EffectiveStops(immediately, s, steps) + (if t.running then 1 else 0)
    decreases |steps|
  {
    if steps != [] { WorkersStarted(immediately, Next(immediately, s, steps[0]).value, steps[1..]); }
  }

  /** Live workers never exceed the effective Stops, plus one while Running holds. */
  lemma {:induction false} LiveWorkersAreBounded(immediately: bool, config: Config, steps: seq<Step>)
    requires Run(immediately, InitialState(config), steps).Some?
    ensures var s := Run(immediately, InitialState(config), steps).value;
            Live(s.workers) <= EffectiveStops(immediately, InitialState(config), steps) + if s.running then 1 else 0
  {
    WorkersStarted(immediately, InitialState(config), steps);
    LiveAtMostAll(Run(immediately, InitialState(config), steps).value.workers);
  }

  function Restart(): seq<Step> {
    [Lock(Stop), Body, Unlock, Lock(Start), Body, Unlock]
  }

  /** n times Stop and Start, after a first Start. */
  function Restarts(n: nat): seq<Step> {
    if n == 0 then [Lock(Start), Body, Unlock] else Restarts(n - 1) + Restart()
  }

  lemma {:induction false} RunConcat(immediately: bool, s: State, a: seq<Step>, b: seq<Step>)
    requires Run(immediately, s, a).Some?
    ensures var t := Run(immediately, s, a).value;
            Run(immediately, s, a + b) == Run(immediately, t, b) &&
            EffectiveStops(immediately, s, a + b) == EffectiveStops(immediately, s, a) + EffectiveStops(immediately, t, b)
    decreases |a|
  {
    if a == [] {
      assert a + b == b;
    } else {
      assert (a + b)[0] == a[0] && (a + b)[1..] == a[1..] + b;
      RunConcat(immediately, Next(immediately, s, a[0]).value, a[1..], b);
    }
  }

  /** A locked call, its body and the unlock, run from a state with a free mutex. */
  lemma {:induction false} RunCall(immediately: bool, s: State, call: Call)
    requires s.mutex == Nobody
    ensures Run(immediately, s, [Lock(call), Body, Unlock]) == Some(Effect(s, call))
    ensures EffectiveStops(immediately, s, [Lock(call), Body, Unlock]) == if call == Stop && s.running then 1 else 0
  {
    var steps := [Lock(call), Body, Unlock];
    var s1 := s.(mutex := Caller(call, false));
    var s2 := Effect(s1, call).(mutex := Caller(call, true));
    assert steps[1..] == [Body, Unlock] && steps[1..][1..] == [Unlock] && steps[1..][1..][1..] == [];
    assert Next(immediately, s2, Unlock) == Some(Effect(s, call));
    assert Run(immediately, s2, [Unlock]) == Some(Effect(s, call));
    assert EffectiveStops(immediately, s2, [Unlock]) == 0;
    assert Run(immediately, s1, [Body, Unlock]) == Run(immediately, s2, [Unlock]);
    assert EffectiveStops(immediately, s1, [Body, Unlock]) == if call == Stop && s.running then 1 else 0;
  }

  /** A round leaves the thread asleep or, when Running is false, at its end, and the mutex free. */
  lemma {:induction false} RunRound(immediately: bool, s: State, id: nat)
    requires s.mutex == Nobody && id < |s.workers| && s.workers[id] == Waiting
    ensures Run(immediately, s, [Acquire(id), FinishUpdate(id), Check(id)]) ==
            Some(s.(workers := s.workers[id := if s.running then Sleeping else Ended]))
  {
    var steps := [Acquire(id), FinishUpdate(id), Check(id)];
    assert steps[1..] == [FinishUpdate(id), Check(id)] && steps[1..][1..] == [Check(id)] && [Check(id)][1..] == [];
    var s1 := Next(immediately, s, Acquire(id)).value;
    var s2 := Next(immediately, s1, FinishUpdate(id)).value;
    assert Run(immediately, s2, [Check(id)]) == Next(immediately, s2, Check(id));
    assert Run(immediately, s1, [FinishUpdate(id), Check(id)]) == Run(immediately, s2, [Check(id)]);
    var last := if s.running then Sleeping else Ended;
    assert s.workers[id := Updating][id := Updated][id := last] == s.workers[id := last];
  }

  /** Stop and Start in a row replace the handle and add a worker, leaving all others where they are. */
  lemma {:induction false} RestartAddsWorker(immediately: bool, s: State)
    requires s.mutex == Nobody && s.running
    ensures var r := Run(immediately, s, Restart());
            r.Some? && r.value.running && r.value.mutex == Nobody && r.value.workers == s.workers + [Initial]
    ensures EffectiveStops(immediately, s, Restart()) == 1
  {
    var first, second := [Lock(Stop), Body, Unlock], [Lock(Start), Body, Unlock];
    assert Restart() == first + second;
    hide Run, EffectiveStops;
    RunCall(immediately, s, Stop);
    RunConcat(immediately, s, first, second);
    RunCall(immediately, Effect(s, Stop), Start);
  }

  /** The bound is attained for every number of Stops: a stopped worker is still alive when the next one
      starts, so n restarts in quick succession leave n + 1 live workers, all of them running. */
  lemma {:induction false} BoundIsAttained(immediately: bool, config: Config, n: nat)
    ensures var r := Run(immediately, InitialState(config), Restarts(n));
            r.Some? && r.value.running && r.value.mutex == Nobody &&
            EffectiveStops(immediately, InitialState(config), Restarts(n)) == n && Live(r.value.workers) == n + 1
    decreases n
  {
    var init := InitialState(config);
    hide Run, EffectiveStops;
    if n == 0 {
      RunCall(immediately, init, Start);
      assert Effect(init, Start).workers == [Initial];
    } else {
      hide Live, Restart;
      BoundIsAttained(immediately, config, n - 1);
      var s := Run(immediately, init, Restarts(n - 1)).value;
      RunConcat(immediately, init, Restarts(n - 1), Restart());
      RestartAddsWorker(immediately, s);
      LiveAppend(s.workers, Initial);
    }
  }

  lemma {:induction false} LiveAppend(workers: seq<Pc>, pc: Pc)
    ensures Live(workers + [pc]) == Live(workers) + if pc != Ended then 1 else 0
  {
    if workers == [] {
      assert workers + [pc] == [pc];
    } else {
      assert (workers + [pc])[0] == workers[0] && (workers + [pc])[1..] == workers[1..] + [pc];
      LiveAppend(workers[1..], pc);
    }
  }

  // ---------- Draining after Stop ----------

  /** Steps a worker still has before it ends, once Running is false for good. */
  function Rank(pc: Pc): nat {
    match pc
    case Initial => 4
    case Sleeping => 4
    case Waiting => 3
    case Updating => 2
    case Updated => 1
    case Ended => 0
  }

  function Potential(workers: seq<Pc>): nat {
    if workers == [] then 0 else Rank(workers[0]) + Potential(workers[1..])
  }

  lemma {:induction false} PotentialUpdate(workers: seq<Pc>, i: nat, pc: Pc)
    requires i < |workers|
    ensures Potential(workers[i := pc]) == Potential(workers) - Rank(workers[i]) + Rank(pc)
  {
    if i == 0 {
      assert workers[i := pc][1..] == workers[1..];
    } else {
      assert workers[i := pc][1..] == workers[1..][i - 1 := pc];
      PotentialUpdate(workers[1..], i - 1, pc);
    }
  }

  predicate IsWorkerStep(step: Step) {
    step.Wake? || step.Interrupted? || step.Acquire? || step.FinishUpdate? || step.Check?
  }

  function WorkerSteps(steps: seq<Step>): nat {
    if steps == [] then 0 else (if IsWorkerStep(steps[0]) then 1 else 0) + WorkerSteps(steps[1..])
  }

  /** The Update calls worker `id` begins in a run. */
  function Updates(steps: seq<Step>, id: nat): nat {
    if steps == [] then 0 else (if steps[0] == Acquire(id) then 1 else 0) + Updates(steps[1..], id)
  }

  /** No Start takes effect: the body of no Start call is executed. */
  predicate NoStart(immediately: bool, s: State, steps: seq<Step>)
    decreases |steps|
  {
    steps != [] ==>
      !(steps[0] == Body && s.mutex == Caller(Start, false)) &&
      (Next(immediately, s, steps[0]).Some? ==> NoStart(immediately, Next(immediately, s, steps[0]).value, steps[1..]))
  }

  /** While stopped, every worker step uses up potential and no caller adds any. */
  lemma StoppedStep(immediately: bool, s: State, step: Step)
    requires !s.running && Next(immediately, s, step).Some?
    requires !(step == Body && s.mutex == Caller(Start, false))
    ensures var t := Next(immediately, s, step).value;
            !t.running && |t.workers| == |s.workers| &&
            Potential(t.workers) + (if IsWorkerStep(step) then 1 else 0) <= Potential(s.workers)
  {
    if IsWorkerStep(step) {
      var t := Next(immediately, s, step).value;
      PotentialUpdate(s.workers, step.id, t.workers[step.id]);
      assert t.workers == s.workers[step.id := t.workers[step.id]];
    }
  }

  function UpdatesLeft(pc: Pc): nat {
    if pc in {Initial, Sleeping, Waiting} then 1 else 0
  }

  lemma {:induction false} Drains(immediately: bool, s: State, steps: seq<Step>, id: nat)
    requires !s.running && Run(immediately, s, steps).Some? && NoStart(immediately, s, steps)
    ensures var t := Run(immediately, s, steps).value;
            !t.running && |t.workers| == |s.workers| &&
            WorkerSteps(steps) + Potential(t.workers) <= Potential(s.workers) &&
            Updates(steps, id) <= if id < |s.workers| then UpdatesLeft(s.workers[id]) else 0
    decreases |steps|
  {
    if steps != [] {
      StoppedStep(immediately, s, steps[0]);
      Drains(immediately, Next(immediately, s, steps[0]).value, steps[1..], id);
    }
  }

  lemma {:induction false} PotentialIsBounded(workers: seq<Pc>)
    ensures Live(workers) <= Potential(workers) <= 4 * Live(workers)
  {
    if workers != [] { PotentialIsBounded(workers[1..]); }
  }

  /** After a Stop with no later Start, in every interleaving: each worker begins at most one more Update,
      and the steps they take plus the workers still alive never exceed four per worker alive at first. */
  lemma {:induction false} StopDrains(immediately: bool, config: Config, before: seq<Step>, steps: seq<Step>, id: nat)
    requires Run(immediately, InitialState(config), before).Some?
    requires var s := Run(immediately, InitialState(config), before).value;
             !s.running && Run(immediately, s, steps).Some? && NoStart(immediately, s, steps)
    ensures var s := Run(immediately, InitialState(config), before).value;
            var t := Run(immediately, s, steps).value;
            Updates(steps, id) <= 1 && WorkerSteps(steps) + Live(t.workers) <= 4 * Live(s.workers)
  {
    var s := Run(immediately, InitialState(config), before).value;
    Drains(immediately, s, steps, id);
    PotentialIsBounded(s.workers);
    PotentialIsBounded(Run(immediately, s, steps).value.workers);
  }

  /** Nothing gets stuck: as long as a worker lives, the holder of the mutex or a live worker can move. */
  lemma {:induction false} SomeoneCanMove(immediately: bool, config: Config, before: seq<Step>, i: nat)
    requires Run(immediately, InitialState(config), before).Some?
    requires var s := Run(immediately, InitialState(config), before).value;
             i < |s.workers| && s.workers[i] != Ended
    ensures var s := Run(immediately, InitialState(config), before).value;
            exists step: Step :: !step.Lock? && Next(immediately, s, step).Some?
  {
    var s := Run(immediately, InitialState(config), before).value;
    RunKeepsInv(immediately, InitialState(config), before);
    var step :=
      match s.mutex
      case Caller(_, done) => if done then Unlock else Body
      case Worker(id) => if s.workers[id] == Updating then FinishUpdate(id) else Check(id)
      case Nobody => if s.workers[i] == Waiting then Acquire(i) else Wake(i);
    assert Next(immediately, s, step).Some?;
  }

  // ---------- What the calls do ----------

  /** A setter called while no worker is running sets its own setting and nothing else; while one is running it
      does nothing. */
  lemma {:induction false} SettersSet(immediately: bool, s: State, url: string, interval: int, file: string)
    requires s.mutex == Nobody
    ensures Run(immediately, s, [Lock(SetSourceURL(url)), Body, Unlock]) ==
            Some(if s.running then s else s.(config := Config(url, s.config.interval, s.config.tempFile)))
    ensures Run(immediately, s, [Lock(SetInterval(interval)), Body, Unlock]) ==
            Some(if s.running then s else s.(config := Config(s.config.sourceURL, interval, s.config.tempFile)))
    ensures Run(immediately, s, [Lock(SetTempFile(file)), Body, Unlock]) ==
            Some(if s.running then s else s.(config := Config(s.config.sourceURL, s.config.interval, file)))
  {
    hide Run;
    RunCall(immediately, s, SetSourceURL(url));
    RunCall(immediately, s, SetInterval(interval));
    RunCall(immediately, s, SetTempFile(file));
  }

  /** Start, when nothing is running, creates one thread; Stop then asks exactly that thread to end, and the
      thread is still there. */
  lemma {:induction false} StopAsksTheStarted(immediately: bool, s: State)
    requires s.mutex == Nobody && !s.running
    ensures var started := Run(immediately, s, [Lock(Start), Body, Unlock]);
            started.Some? && started.value.running && started.value.mutex == Nobody &&
            started.value.workers == s.workers + [Initial] && started.value.asked == s.asked &&
            var stopped := Run(immediately, started.value, [Lock(Stop), Body, Unlock]);
            stopped.Some? && !stopped.value.running && stopped.value.workers == s.workers + [Initial] &&
            stopped.value.asked == s.asked + {|s.workers|} && stopped.value.config == s.config
  {
    hide Run;
    RunCall(immediately, s, Start);
    RunCall(immediately, Effect(s, Start), Stop);
  }

  ghost predicate HandleInv(s: State) {
    (s.running ==> s.workers != [] && s.handle == Some(|s.workers| - 1)) &&
    forall id <- s.asked :: id < |s.workers| && (s.running ==> id < |s.workers| - 1)
  }

  lemma {:induction false} RunKeepsHandle(immediately: bool, s: State, steps: seq<Step>)
    requires HandleInv(s) && Run(immediately, s, steps).Some?
    ensures HandleInv(Run(immediately, s, steps).value)
    decreases |steps|
  {
    if steps != [] {
      StepKeepsHandle(immediately, s, steps[0]);
      RunKeepsHandle(immediately, Next(immediately, s, steps[0]).value, steps[1..]);
    }
  }

  lemma StepKeepsHandle(immediately: bool, s: State, step: Step)
    requires HandleInv(s) && Next(immediately, s, step).Some?
    ensures HandleInv(Next(immediately, s, step).value)
  {
  }

  /** In every reachable state in which Running holds, the thread that Stop would ask to end is the one started
      last, and it has not been asked before. */
  lemma {:induction false} HandleIsTheLatest(immediately: bool, config: Config, steps: seq<Step>)
    requires Run(immediately, InitialState(config), steps).Some?
    ensures var s := Run(immediately, InitialState(config), steps).value;
            s.running ==> s.handle.Some? && s.handle.value == |s.workers| - 1 && s.handle.value !in s.asked
  {
    RunKeepsHandle(immediately, InitialState(config), steps);
  }

  // ---------- Why workers end ----------

  lemma {:induction false} StepsWithoutStop(immediately: bool, s: State, steps: seq<Step>)
    requires Run(immediately, s, steps).Some? && EffectiveStops(immediately, s, steps) == 0
    requires s.asked == {} && (forall i :: 0 <= i < |s.workers| ==> s.workers[i] != Ended) && (s.workers != [] ==> s.running)
    ensures var t := Run(immediately, s, steps).value;
            (forall i :: 0 <= i < |t.workers| ==> t.workers[i] != Ended) && (t.workers != [] ==> t.running)
    decreases |steps|
  {
    if steps != [] {
      StepsWithoutStop(immediately, Next(immediately, s, steps[0]).value, steps[1..]);
    }
  }

  /** Without an effective Stop no worker ever ends. */
  lemma {:induction false} OnlyStopEndsWorkers(immediately: bool, config: Config, steps: seq<Step>, id: nat)
    requires Run(immediately, InitialState(config), steps).Some?
    requires EffectiveStops(immediately, InitialState(config), steps) == 0
    ensures var t := Run(immediately, InitialState(config), steps).value;
            id < |t.workers| ==> t.running && t.workers[id] != Ended
  {
    StepsWithoutStop(immediately, InitialState(config), steps);
  }

  lemma {:induction false} UpdatesSoFar(s: State, steps: seq<Step>, id: nat, had: nat)
    requires Run(true, s, steps).Some?
    requires id < |s.workers| && s.workers[id] !in {Initial, Waiting} ==> had >= 1
    ensures var t := Run(true, s, steps).value;
            id < |t.workers| && t.workers[id] !in {Initial, Waiting} ==> had + Updates(steps, id) >= 1
    decreases |steps|
  {
    if steps != [] {
      var t := Next(true, s, steps[0]).value;
      UpdatesSoFar(t, steps[1..], id, had + if steps[0] == Acquire(id) then 1 else 0);
    }
  }

  /** A worker that starts immediately does not end before it has begun an Update, however soon it is stopped. */
  lemma {:induction false} FirstUpdateIsCertain(config: Config, steps: seq<Step>, id: nat)
    requires Run(true, InitialState(config), steps).Some?
    ensures var t := Run(true, InitialState(config), steps).value;
            id < |t.workers| && t.workers[id] == Ended ==> Updates(steps, id) >= 1
  {
    UpdatesSoFar(InitialState(config), steps, id, 0);
  }

  lemma {:induction false} EndedIsFinal(immediately: bool, s: State, steps: seq<Step>, id: nat)
    requires Run(immediately, s, steps).Some? && id < |s.workers| && s.workers[id] == Ended
    ensures var t := Run(immediately, s, steps).value; id < |t.workers| && t.workers[id] == Ended
    ensures Updates(steps, id) == 0
    decreases |steps|
  {
    if steps != [] { EndedIsFinal(immediately, Next(immediately, s, steps[0]).value, steps[1..], id); }
  }

  /** An interruption that is delivered ends its thread at once: it begins no further Update, whatever follows, and
      everything else stays as it is. */
  lemma {:induction false} InterruptionIsFinal(immediately: bool, s: State, id: nat, steps: seq<Step>)
    requires Next(immediately, s, Interrupted(id)).Some?
    requires Run(immediately, Next(immediately, s, Interrupted(id)).value, steps).Some?
    ensures Next(immediately, s, Interrupted(id)).value == s.(workers := s.workers[id := Ended])
    ensures Updates(steps, id) == 0 && id in s.asked
  {
    hide Run, Updates;
    EndedIsFinal(immediately, Next(immediately, s, Interrupted(id)).value, steps, id);
  }
}
