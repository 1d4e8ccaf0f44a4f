/**
 ServiceGroup of service/servicegroup.go as interleaved steps of the goroutine running
 doStart, one goroutine per service, the barrier goroutine and the one execution of doStop
 that sync.OnceFunc allows. The service list is fixed and Start is called at most once.
 */
module ServiceGroup {

  /** A service goroutine of doStart. */
  datatype Worker =
    | Unspawned
    | Spawned
    | Entered      // entered.Done() called, s.Start() not yet
    | Running      // inside s.Start()
    | Panicked     // recovered, about to enter panicOnce.Do
    | Stopping     // inside panicOnce.Do, calling stopOnce
    | Exited

  /** Progress of doStart: snapshot taken, started set, barrier armed and k goroutines spawned. */
  datatype Starter = NotCalled | Snapshot | Marked | Spawning(k: nat)

  /** Progress of the one doStop: Dispatching(k) has k services left, from the last one down. */
  datatype Stopper = Idle | Begun | AtBarrier | Dispatching(k: nat) | Finished

  datatype Once = Fresh | Busy | Done

  datatype State = State(
    started: bool, starter: Starter, workers: seq<Worker>, entered: bool,   // entered: allEntered is closed
    stopper: Stopper, sawStarted: bool, panicOnce: Once,
    stopped: seq<nat>)                                                      // services whose Stop was dispatched, in order

  function Init(n: nat): State {
    State(false, NotCalled, seq(n, _ => Unspawned), false, Idle, false, Fresh, [])
  }

  predicate Reported(w: Worker) {
    !w.Unspawned? && !w.Spawned?
  }

  datatype Step =
    | CallStart | Mark | Arm | Spawn | CloseBarrier
    | Report(i: nat) | Begin(i: nat) | Return(i: nat) | Panic(i: nat)
    | ClaimPanic(i: nat) | SkipPanic(i: nat) | FinishPanic(i: nat)
    | BeginStop                    // the first call of stopOnce, by a user or a Stopping worker
    | Sample | PassBarrier | Dispatch | FinishStop

  predicate At(s: State, i: nat, w: Worker) {
    i < |s.workers| && s.workers[i] == w
  }

  predicate AllReported(s: State) {
    forall i :: 0 <= i < |s.workers| ==> Reported(s.workers[i])
  }

  predicate Enabled(s: State, st: Step) {
    match st
    case CallStart => s.starter.NotCalled?
    case Mark => s.starter.Snapshot?
    case Arm => s.starter.Marked?
    case Spawn => s.starter.Spawning? && s.starter.k < |s.workers|
    case CloseBarrier => s.starter.Spawning? && !s.entered && AllReported(s)
    case Report(i) => At(s, i, Spawned)
    case Begin(i) => At(s, i, Entered)
    case Return(i) => At(s, i, Running)
    case Panic(i) => At(s, i, Running)
    case ClaimPanic(i) => At(s, i, Panicked) && s.panicOnce.Fresh?
    case SkipPanic(i) => At(s, i, Panicked) && s.panicOnce.Done?
    case FinishPanic(i) => At(s, i, Stopping) && s.stopper.Finished?
    case BeginStop => s.stopper.Idle?
    case Sample => s.stopper.Begun?
    case PassBarrier => s.stopper.AtBarrier? && s.entered
    case Dispatch => s.stopper.Dispatching? && s.stopper.k > 0 && s.stopper.k <= |s.workers|
    case FinishStop => s.stopper == Dispatching(0)
  }

  function Move(s: State, i: nat, w: Worker): State
    requires i < |s.workers|
  {
    s.(workers := s.workers[i := w])
  }

  function Apply(s: State, st: Step): State
    requires Enabled(s, st)
  {
    match st
    case CallStart => s.(starter := Snapshot)
    case Mark => s.(starter := Marked, started := true)
    case Arm => s.(starter := Spawning(0))
    case Spawn => Move(s, s.starter.k, Spawned).(starter := Spawning(s.starter.k + 1))
    case CloseBarrier => s.(entered := true)
    case Report(i) => Move(s, i, Entered)
    case Begin(i) => Move(s, i, Running)
    case Return(i) => Move(s, i, Exited)
    case Panic(i) => Move(s, i, Panicked)
    case ClaimPanic(i) => Move(s, i, Stopping).(panicOnce := Busy)
    case SkipPanic(i) => Move(s, i, Exited)
    case FinishPanic(i) => Move(s, i, Exited).(panicOnce := Done)
    case BeginStop => s.(stopper := Begun)
    case Sample =>
      s.(stopper := if s.started then AtBarrier else Dispatching(|s.workers|), sawStarted := s.started)
    case PassBarrier => s.(stopper := Dispatching(|s.workers|))
    case Dispatch => s.(stopper := Dispatching(s.stopper.k - 1), stopped := s.stopped + [s.stopper.k - 1])
    case FinishStop => s.(stopper := Finished)
  }

  // ---------------------------------------------------------------- invariant

  /** The services n-1 down to k, the order in which doStop dispatches. */
  ghost function Down(n: nat, k: nat): seq<nat>
    requires k <= n
  {
    seq(n - k, i requires 0 <= i < n - k => n - 1 - i)
  }

  ghost predicate Inv(s: State, n: nat) {
    && |s.workers| == n
    && (s.started <==> s.starter.Marked? || s.starter.Spawning?)
    && (forall i :: 0 <= i < n ==>
          (s.workers[i].Unspawned? <==> !(s.starter.Spawning? && i < s.starter.k)))
    && (s.starter.Spawning? ==> s.starter.k <= n)
    && (s.entered ==> s.starter.Spawning? && AllReported(s))
    && (match s.stopper
        case Idle => s.stopped == [] && !s.sawStarted
        case Begun => s.stopped == [] && !s.sawStarted
        case AtBarrier => s.stopped == [] && s.sawStarted && s.started
        case Dispatching(k) => k <= n && s.stopped == Down(n, k) && (s.sawStarted ==> s.entered)
        case Finished => s.stopped == Down(n, 0) && (s.sawStarted ==> s.entered))
    && (s.panicOnce.Done? ==> s.stopper.Finished?)
  }

  lemma {:induction false} DownStep(n: nat, k: nat)
    requires 0 < k <= n
    ensures Down(n, k) + [k - 1] == Down(n, k - 1)
  {
  }

  predicate WorkerStep(st: Step) {
    st.Report? || st.Begin? || st.Return? || st.Panic? || st.ClaimPanic? || st.SkipPanic? || st.FinishPanic?
  }

  predicate StarterStep(st: Step) {
    st.CallStart? || st.Mark? || st.Arm? || st.Spawn? || st.CloseBarrier?
  }

  lemma {:induction false} WorkerKeepsInv(s: State, st: Step, n: nat)
    requires Inv(s, n) && Enabled(s, st) && WorkerStep(st)
    ensures Inv(Apply(s, st), n)
  {
  }

  lemma {:induction false} StarterKeepsInv(s: State, st: Step, n: nat)
    requires Inv(s, n) && Enabled(s, st) && StarterStep(st)
    ensures Inv(Apply(s, st), n)
  {
  }

  lemma {:induction false} StopperKeepsInv(s: State, st: Step, n: nat)
    requires Inv(s, n) && Enabled(s, st) && !WorkerStep(st) && !StarterStep(st)
    ensures Inv(Apply(s, st), n)
  {
    if st.Dispatch? {
      DownStep(n, s.stopper.k);
    }
  }

  lemma {:induction false} StepKeepsInv(s: State, st: Step, n: nat)
    requires Inv(s, n) && Enabled(s, st)
    ensures Inv(Apply(s, st), n)
  {
    if WorkerStep(st) {
      WorkerKeepsInv(s, st, n);
    } else if StarterStep(st) {
      StarterKeepsInv(s, st, n);
    } else {
      StopperKeepsInv(s, st, n);
    }
  }

  ghost predicate IsRun(n: nat, states: seq<State>, steps: seq<Step>) {
    && |states| == |steps| + 1 && states[0] == Init(n)
    && forall i {:trigger steps[i]} :: 0 <= i < |steps| ==>
         Enabled(states[i], steps[i]) && states[i + 1] == Apply(states[i], steps[i])
  }

  lemma {:induction false} RunKeepsInv(n: nat, states: seq<State>, steps: seq<Step>, m: nat)
    requires IsRun(n, states, steps) && m < |states|
    ensures Inv(states[m], n)
  {
    if m > 0 {
      RunKeepsInv(n, states, steps, m - 1);
      assert Enabled(states[m - 1], steps[m - 1]) && states[m] == Apply(states[m - 1], steps[m - 1]);
      StepKeepsInv(states[m - 1], steps[m - 1], n);
    }
  }

  // ---------------------------------------------------------------- stop-once and the barrier

  /**
   In every reachable state each service has been stopped at most once, in reverse order of
   addition; if doStop saw `started`, nothing is stopped before every service goroutine has
   reported entry; and a finished doStop has stopped every service.
   */
  lemma {:induction false} StopGuarantees(n: nat, states: seq<State>, steps: seq<Step>, m: nat)
    requires IsRun(n, states, steps) && m < |states|
    ensures var s := states[m];
            && (forall i, j :: 0 <= i < j < |s.stopped| ==> s.stopped[i] > s.stopped[j])
            && (forall i :: 0 <= i < |s.stopped| ==> s.stopped[i] < n)
            && (s.stopped != [] && s.sawStarted ==> AllReported(s) && |s.workers| == n)
            && (s.stopper.Finished? ==> |s.stopped| == n)
  {
    RunKeepsInv(n, states, steps, m);
  }

  lemma {:induction false} SawForGood(n: nat, states: seq<State>, steps: seq<Step>, k: nat, m: nat)
    requires IsRun(n, states, steps) && k <= m < |states| && states[k].sawStarted
    ensures states[m].sawStarted
    decreases m - k
  {
    if k < m {
      SawForGood(n, states, steps, k, m - 1);
      RunKeepsInv(n, states, steps, m - 1);
      assert Enabled(states[m - 1], steps[m - 1]) && states[m] == Apply(states[m - 1], steps[m - 1]);
    }
  }

  /** If Start had begun when doStop looked, nothing is stopped before every goroutine has reported entry. */
  lemma {:induction false} BarrierRespected(n: nat, states: seq<State>, steps: seq<Step>, k: nat, m: nat)
    requires IsRun(n, states, steps) && k < m < |states| && steps[k] == Sample && states[k].started
    ensures states[m].stopped != [] ==> AllReported(states[m]) && |states[m].workers| == n
  {
    assert Enabled(states[k], steps[k]) && states[k + 1] == Apply(states[k], steps[k]);
    SawForGood(n, states, steps, k + 1, m);
    StopGuarantees(n, states, steps, m);
  }

  // ---------------------------------------------------------------- the story of one goroutine

  /** The step was taken before state m. */
  ghost predicate Happened(steps: seq<Step>, m: nat, st: Step)
    requires m <= |steps|
  {
    exists k :: 0 <= k < m && steps[k] == st
  }

  lemma {:induction false} HappenedNext(steps: seq<Step>, m: nat, st: Step)
    requires m < |steps|
    ensures Happened(steps, m + 1, st) <==> Happened(steps, m, st) || steps[m] == st
  {
  }

  /** What the position of goroutine i says about the steps it has taken. */
  ghost predicate Story(w: Worker, begun: bool, returned: bool, panicked: bool, allStopped: bool) {
    match w
    case Unspawned => !begun && !returned && !panicked
    case Spawned => !begun && !returned && !panicked
    case Entered => !begun && !returned && !panicked
    case Running => begun && !returned && !panicked
    case Panicked => begun && !returned && panicked
    case Stopping => begun && !returned && panicked
    case Exited => begun && (returned != panicked) && (panicked ==> allStopped)
  }

  lemma {:induction false} StoryStep(s: State, st: Step, n: nat, i: nat, begun: bool, returned: bool, panicked: bool)
    requires Inv(s, n) && Enabled(s, st) && i < n
    requires Story(s.workers[i], begun, returned, panicked, s.stopped == Down(n, 0))
    ensures var s' := Apply(s, st);
            && |s'.workers| == n
            && Story(s'.workers[i], begun || st == Begin(i), returned || st == Return(i), panicked || st == Panic(i),
                     s'.stopped == Down(n, 0))
  {
    StoppedForGood(s, st, n);
    if st.Spawn? || WorkerStep(st) {
      MoverStory(s, st, n, i, begun, returned, panicked);
    }
  }

  /** A service stopped stays stopped, and when all are, none is dispatched again. */
  lemma {:induction false} StoppedForGood(s: State, st: Step, n: nat)
    requires Inv(s, n) && Enabled(s, st)
    ensures s.stopped == Down(n, 0) ==> Apply(s, st).stopped == Down(n, 0)
    ensures s.stopper.Finished? ==> s.stopped == Down(n, 0)
  {
    assert |Down(n, 0)| == n;
  }

  /** A step that moves a goroutine leaves doStop alone. */
  lemma {:induction false} MoverStory(s: State, st: Step, n: nat, i: nat, begun: bool, returned: bool, panicked: bool)
    requires Inv(s, n) && Enabled(s, st) && i < n && (st.Spawn? || WorkerStep(st))
    requires Story(s.workers[i], begun, returned, panicked, s.stopped == Down(n, 0))
    ensures Story(Apply(s, st).workers[i], begun || st == Begin(i), returned || st == Return(i),
                  panicked || st == Panic(i), s.stopped == Down(n, 0))
    ensures Apply(s, st).stopped == s.stopped && |Apply(s, st).workers| == n
  {
  }

  /**
   Over every run a goroutine calls Start once, ends by its return or by its panic and not by
   both, and after a panic does not end before every service has been stopped.
   */
  lemma {:induction false} GoroutineStory(n: nat, states: seq<State>, steps: seq<Step>, m: nat, i: nat)
    requires IsRun(n, states, steps) && m < |states| && i < n
    ensures |states[m].workers| == n
    ensures Story(states[m].workers[i], Happened(steps, m, Begin(i)), Happened(steps, m, Return(i)),
                  Happened(steps, m, Panic(i)), states[m].stopped == Down(n, 0))
  {
    if m > 0 {
      var s, st := states[m - 1], steps[m - 1];
      GoroutineStory(n, states, steps, m - 1, i);
      RunKeepsInv(n, states, steps, m - 1);
      assert Enabled(s, st) && states[m] == Apply(s, st);
      HappenedNext(steps, m - 1, Begin(i));
      HappenedNext(steps, m - 1, Return(i));
      HappenedNext(steps, m - 1, Panic(i));
      StoryStep(s, st, n, i, Happened(steps, m - 1, Begin(i)), Happened(steps, m - 1, Return(i)),
                Happened(steps, m - 1, Panic(i)));
    }
  }

  /** A panic in Start is followed through: its goroutine does not end before every service has been stopped. */
  lemma {:induction false} PanicStopsAll(n: nat, states: seq<State>, steps: seq<Step>, k: nat, m: nat, i: nat)
    requires IsRun(n, states, steps) && k < m < |states| && steps[k] == Panic(i)
    ensures At(states[m], i, Panicked) || At(states[m], i, Stopping) || At(states[m], i, Exited)
    ensures At(states[m], i, Exited) ==> states[m].stopped == Down(n, 0)
  {
    RunKeepsInv(n, states, steps, k);
    assert Enabled(states[k], steps[k]);
    GoroutineStory(n, states, steps, m, i);
    assert Happened(steps, m, Panic(i));
  }

  // ---------------------------------------------------------------- a waiting doStop is released

  function Missing(ws: seq<Worker>): nat {
    if ws == [] then 0 else Missing(ws[..|ws| - 1]) + (if Reported(ws[|ws| - 1]) then 0 else 1)
  }

  /** The barrier work left: arm, spawn, report, close. */
  function BarrierWork(s: State): nat
    requires s.starter.Spawning? ==> s.starter.k <= |s.workers|
  {
    (if s.starter.Spawning? then |s.workers| - s.starter.k else |s.workers| + 1)
    + Missing(s.workers) + (if s.entered then 0 else 1)
  }

  lemma {:induction false} MissingMove(ws: seq<Worker>, i: nat, w: Worker)
    requires i < |ws|
    ensures Missing(ws[i := w]) ==
            Missing(ws) + (if Reported(w) then 0 else 1) - (if Reported(ws[i]) then 0 else 1)
  {
    var n := |ws| - 1;
    if i < n {
      MissingMove(ws[..n], i, w);
      assert ws[i := w][..n] == ws[..n][i := w];
    } else {
      assert ws[i := w][..n] == ws[..n];
    }
  }

  lemma {:induction false} SomeMissing(ws: seq<Worker>) returns (i: nat)
    requires !(forall j :: 0 <= j < |ws| ==> Reported(ws[j]))
    ensures i < |ws| && !Reported(ws[i])
  {
    i :| 0 <= i < |ws| && !Reported(ws[i]);
  }

  predicate BarrierStep(st: Step) {
    st.Arm? || st.Spawn? || st.Report? || st.CloseBarrier?
  }

  /** No step adds barrier work, and every barrier step removes some. */
  lemma {:induction false} WorkNeverGrows(s: State, st: Step, n: nat)
    requires Inv(s, n) && Enabled(s, st)
    ensures Inv(Apply(s, st), n)
    ensures BarrierWork(Apply(s, st)) <= BarrierWork(s)
    ensures BarrierStep(st) ==> BarrierWork(Apply(s, st)) < BarrierWork(s)
  {
    StepKeepsInv(s, st, n);
    if st.Spawn? {
      MissingMove(s.workers, s.starter.k, Spawned);
    } else if WorkerStep(st) {
      MissingMove(s.workers, st.i, Apply(s, st).workers[st.i]);
    }
  }

  /**
   A waiting doStop is always released: either the barrier is closed and it can pass, or a
   barrier step is enabled. None of these steps belongs to a goroutine that may itself be
   inside stopOnce, so a panicking service can safely be the one that stops the group.
   */
  lemma {:induction false} WaitingStopReleased(s: State, n: nat) returns (st: Step)
    requires Inv(s, n) && s.stopper.AtBarrier?
    ensures Enabled(s, st) && (if s.entered then st == PassBarrier else BarrierStep(st))
    ensures st.Report? ==> At(s, st.i, Spawned)
  {
    if s.entered {
      st := PassBarrier;
    } else if s.starter.Marked? {
      st := Arm;
    } else if s.starter.k < n {
      st := Spawn;
    } else if AllReported(s) {
      st := CloseBarrier;
    } else {
      var i := SomeMissing(s.workers);
      st := Report(i);
    }
  }

  /** Following the enabled barrier steps alone, doStop passes after at most BarrierWork steps. */
  lemma {:induction false} BarrierTerminates(s: State, n: nat) returns (steps: seq<Step>, s': State)
    requires Inv(s, n) && s.stopper.AtBarrier?
    ensures |steps| <= BarrierWork(s) && (forall i :: 0 <= i < |steps| ==> BarrierStep(steps[i]))
    ensures Leads(s, steps, s') && Inv(s', n) && Enabled(s', PassBarrier)
    decreases BarrierWork(s)
  {
    if s.entered {
      steps, s' := [], s;
    } else {
      var st := WaitingStopReleased(s, n);
      WorkNeverGrows(s, st, n);
      var rest;
      rest, s' := BarrierTerminates(Apply(s, st), n);
      steps := [st] + rest;
      assert steps[1..] == rest;
    }
  }

  ghost predicate Leads(s: State, steps: seq<Step>, s': State)
    decreases |steps|
  {
    if steps == [] then s == s'
    else Enabled(s, steps[0]) && Leads(Apply(s, steps[0]), steps[1..], s')
  }

  // ---------------------------------------------------------------- a stop, once due, completes

  /** panicOnce is busy only while a goroutine is inside it. */
  ghost predicate OnceOk(s: State) {
    s.panicOnce.Busy? ==> exists i :: At(s, i, Stopping)
  }

  lemma {:induction false} StepKeepsOnce(s: State, st: Step, n: nat)
    requires Inv(s, n) && OnceOk(s) && Enabled(s, st)
    ensures OnceOk(Apply(s, st))
  {
    var s' := Apply(s, st);
    if st.ClaimPanic? {
      assert At(s', st.i, Stopping);
    } else if s'.panicOnce.Busy? {
      var i :| At(s, i, Stopping);
      assert At(s', i, Stopping);
    }
  }

  lemma {:induction false} RunKeepsOnce(n: nat, states: seq<State>, steps: seq<Step>, m: nat)
    requires IsRun(n, states, steps) && m < |states|
    ensures OnceOk(states[m])
  {
    if m > 0 {
      RunKeepsOnce(n, states, steps, m - 1);
      assert Enabled(states[m - 1], steps[m - 1]) && states[m] == Apply(states[m - 1], steps[m - 1]);
      RunKeepsInv(n, states, steps, m - 1);
      StepKeepsOnce(states[m - 1], steps[m - 1], n);
    }
  }

  /** The group has to stop: Stop was called, or a service has panicked. */
  ghost predicate StopDue(s: State) {
    !s.stopper.Idle? || exists i :: At(s, i, Panicked) || At(s, i, Stopping)
  }

  /** The steps left until every service is stopped, at most. */
  function StopWork(s: State): nat
    requires s.starter.Spawning? ==> s.starter.k <= |s.workers|
  {
    match s.stopper
    case Idle => BarrierWork(s) + |s.workers| + (if s.panicOnce.Fresh? then 6 else 5)
    case Begun => BarrierWork(s) + |s.workers| + 4
    case AtBarrier => BarrierWork(s) + |s.workers| + 3
    case Dispatching(k) => k + 1
    case Finished => 0
  }

  predicate StopChain(st: Step) {
    BarrierStep(st) || st.ClaimPanic? || st.BeginStop? || st.Sample? || st.PassBarrier? || st.Dispatch? || st.FinishStop?
  }

  /** Nothing sets a stop back. */
  lemma {:induction false} StopWorkNeverGrows(s: State, st: Step, n: nat)
    requires Inv(s, n) && Enabled(s, st)
    ensures Inv(Apply(s, st), n) && StopWork(Apply(s, st)) <= StopWork(s)
  {
    WorkNeverGrows(s, st, n);
  }

  /**
   From every state in which the group has to stop and is not done, a step of the stop is
   enabled and brings its end closer. The first call of stopOnce is then that of a panicking
   service, unless Stop was called already.
   */
  lemma {:induction false} StopGoesOn(s: State, n: nat) returns (st: Step)
    requires Inv(s, n) && OnceOk(s) && StopDue(s) && !s.stopper.Finished?
    ensures Enabled(s, st) && StopChain(st) && StopWork(Apply(s, st)) < StopWork(s)
    ensures Inv(Apply(s, st), n) && OnceOk(Apply(s, st)) && StopDue(Apply(s, st))
    ensures st.BeginStop? ==> exists i :: At(s, i, Stopping)
  {
    match s.stopper {
      case Idle => st := StopBegins(s, n);
      case Begun => st := Sample;
      case AtBarrier => st := WaitingStopReleased(s, n);
      case Dispatching(k) => st := if k > 0 then Dispatch else FinishStop;
    }
    StepKeepsOnce(s, st, n);
    WorkNeverGrows(s, st, n);
    if st.ClaimPanic? {
      assert At(Apply(s, st), st.i, Stopping);
    }
  }

  /** Before the stop has begun: the panic handler claims panicOnce, then calls stopOnce. */
  lemma {:induction false} StopBegins(s: State, n: nat) returns (st: Step)
    requires Inv(s, n) && OnceOk(s) && StopDue(s) && s.stopper.Idle?
    ensures Enabled(s, st) && (st.ClaimPanic? || (st.BeginStop? && exists i :: At(s, i, Stopping)))
  {
    var i :| At(s, i, Panicked) || At(s, i, Stopping);
    if At(s, i, Panicked) && s.panicOnce.Fresh? {
      st := ClaimPanic(i);
    } else {
      st := BeginStop;
    }
  }

  /** Following these steps alone, every service is stopped within that measure. */
  lemma {:induction false} StopCompletes(s: State, n: nat) returns (steps: seq<Step>, s': State)
    requires Inv(s, n) && OnceOk(s) && StopDue(s)
    ensures |steps| <= StopWork(s) && (forall i :: 0 <= i < |steps| ==> StopChain(steps[i]))
    ensures Leads(s, steps, s') && s'.stopper.Finished? && s'.stopped == Down(n, 0)
    decreases StopWork(s)
  {
    if s.stopper.Finished? {
      steps, s' := [], s;
    } else {
      var st := StopGoesOn(s, n);
      var rest;
      rest, s' := StopCompletes(Apply(s, st), n);
      LeadsMore(s, rest, s', st);
      steps := [st] + rest;
    }
  }

  // ---------------------------------------------------------------- when Stop does follow Start

  /** s.Start() has been called. */
  predicate StartCalled(w: Worker) {
    Reported(w) && !w.Entered?
  }

  predicate AllCalled(s: State) {
    forall i :: 0 <= i < |s.workers| ==> StartCalled(s.workers[i])
  }

  /** The documented order: no service has been stopped whose Start was not called. */
  ghost predicate StartedFirst(s: State) {
    forall i :: i in s.stopped ==> i < |s.workers| && StartCalled(s.workers[i])
  }

  /** A run that begins with the first call of Stop. */
  ghost predicate StopLeads(s: State, steps: seq<Step>, s': State) {
    steps != [] && steps[0] == BeginStop && Leads(s, steps, s')
  }

  /** A Start that has been called stays called. */
  lemma {:induction false} CalledForGood(s: State, st: Step, n: nat)
    requires Inv(s, n) && Enabled(s, st) && AllCalled(s)
    ensures Inv(Apply(s, st), n) && AllCalled(Apply(s, st))
  {
    StepKeepsInv(s, st, n);
  }

  lemma {:induction false} LeadsCalled(s: State, steps: seq<Step>, s': State, n: nat)
    requires Inv(s, n) && AllCalled(s) && Leads(s, steps, s')
    ensures StartedFirst(s')
    decreases |steps|
  {
    if steps == [] {
      assert forall i :: i in s'.stopped ==> i < n;
    } else {
      CalledForGood(s, steps[0], n);
      LeadsCalled(Apply(s, steps[0]), steps[1..], s', n);
    }
  }

  /** The steps that dispatch the services k-1 down to i. */
  lemma {:induction false} DispatchDown(s: State, k: nat, i: nat) returns (steps: seq<Step>, s': State)
    requires s.stopper == Dispatching(k) && i < k <= |s.workers|
    ensures Leads(s, steps, s') && s'.workers == s.workers && i in s'.stopped
    decreases k
  {
    var s1 := Apply(s, Dispatch);
    if k == i + 1 {
      steps, s' := [], s1;
      assert s1.stopped[|s.stopped|] == i;
    } else {
      steps, s' := DispatchDown(s1, k - 1, i);
    }
    LeadsMore(s, steps, s', Dispatch);
    steps := [Dispatch] + steps;
  }

  /** Barrier steps call no Start. */
  lemma {:induction false} BarrierCallsNothing(s: State, steps: seq<Step>, s': State, i: nat)
    requires Leads(s, steps, s') && forall j :: 0 <= j < |steps| ==> BarrierStep(steps[j])
    requires i < |s.workers| && !StartCalled(s.workers[i])
    ensures |s'.workers| == |s.workers| && !StartCalled(s'.workers[i])
    ensures s'.stopper == s.stopper
    decreases |steps|
  {
    if steps != [] {
      BarrierCallsNothing(Apply(s, steps[0]), steps[1..], s', i);
    }
  }

  lemma {:induction false} LeadsConcat(s: State, a: seq<Step>, m: State, b: seq<Step>, s': State)
    requires Leads(s, a, m) && Leads(m, b, s')
    ensures Leads(s, a + b, s')
    decreases |a|
  {
    if a == [] {
      assert a + b == b;
    } else {
      LeadsConcat(Apply(s, a[0]), a[1..], m, b, s');
      assert (a + b)[1..] == a[1..] + b;
    }
  }

  /** From the sampling of `started` on, the services can be dispatched before any further Start is called. */
  lemma {:induction false} ReachDispatch(s: State, n: nat, i: nat) returns (steps: seq<Step>, s': State)
    requires Inv(s, n) && s.stopper.Begun? && i < n && !StartCalled(s.workers[i])
    ensures Leads(s, steps, s') && s'.stopper == Dispatching(n)
    ensures |s'.workers| == n && !StartCalled(s'.workers[i])
  {
    var s1 := Apply(s, Sample);
    StepKeepsInv(s, Sample, n);
    if s.started {
      var wait, m := BarrierTerminates(s1, n);
      BarrierCallsNothing(s1, wait, m, i);
      s' := Apply(m, PassBarrier);
      LeadsMore(m, [], s', PassBarrier);
      LeadsConcat(s1, wait, m, [PassBarrier], s');
      steps := wait + [PassBarrier];
    } else {
      steps, s' := [], s1;
    }
    LeadsMore(s, steps, s', Sample);
    steps := [Sample] + steps;
  }

  /** If some Start has not been called when Stop is, its service can be stopped first. */
  lemma {:induction false} StopOvertakes(s: State, n: nat, i: nat) returns (steps: seq<Step>, s': State)
    requires Inv(s, n) && s.stopper.Idle? && i < n && !StartCalled(s.workers[i])
    ensures StopLeads(s, steps, s') && i in s'.stopped
    ensures |s'.workers| == n && !StartCalled(s'.workers[i])
  {
    var s1 := Apply(s, BeginStop);
    StepKeepsInv(s, BeginStop, n);
    var before, m := ReachDispatch(s1, n, i);
    var rest;
    rest, s' := DispatchDown(m, n, i);
    LeadsConcat(s1, before, m, rest, s');
    LeadsMore(s, before + rest, s', BeginStop);
    steps := [BeginStop] + (before + rest);
  }

  /**
   Exactly when the documented order holds: whatever happens after a call of Stop, no service
   is stopped before its Start has been called, if and only if every Start has been called by then.
   */
  lemma {:induction false} StopFollowsStartIff(s: State, n: nat)
    requires Inv(s, n) && s.stopper.Idle?
    ensures AllCalled(s) <==> forall steps, s' :: StopLeads(s, steps, s') ==> StartedFirst(s')
  {
    if AllCalled(s) {
      forall steps, s' | StopLeads(s, steps, s') ensures StartedFirst(s') {
        LeadsCalled(s, steps, s', n);
      }
    } else {
      var i :| 0 <= i < |s.workers| && !StartCalled(s.workers[i]);
      var steps, s' := StopOvertakes(s, n, i);
    }
  }

  // ---------------------------------------------------------------- both ways it fails

  /**
   The interface documents that Stop is never issued before the service's Start has been
   called. It is: doStop may sample `started` before Start sets it, and even behind the
   barrier a goroutine has only reported entry, not called Start.
   */
  lemma {:induction false} StopCanPrecedeStart()
    ensures exists steps, s :: Leads(Init(1), steps, s) && s.stopped == [0] && At(s, 0, Unspawned) && !s.sawStarted
    ensures exists steps, s :: Leads(Init(1), steps, s) && s.stopped == [0] && At(s, 0, Entered) && s.sawStarted
  {
    var s0 := Init(1);
    var s1 := Apply(s0, BeginStop);
    var s2 := Apply(s1, Sample);
    var s3 := Apply(s2, Dispatch);
    LeadsMore(s2, [], s3, Dispatch);
    LeadsMore(s1, [Dispatch], s3, Sample);
    LeadsMore(s0, [Sample, Dispatch], s3, BeginStop);
    BehindTheBarrier();
  }

  /** One service: barrier armed; reported but not yet inside Start; and after its Stop. */
  const ARMED := State(true, Spawning(0), [Unspawned], false, Idle, false, Fresh, [])
  const REPORTED := State(true, Spawning(1), [Entered], true, Idle, false, Fresh, [])
  const STOPPED := State(true, Spawning(1), [Entered], true, Dispatching(0), true, Fresh, [0])

  lemma {:induction false} BehindTheBarrier()
    ensures exists steps, s :: Leads(Init(1), steps, s) && s.stopped == [0] && At(s, 0, Entered) && s.sawStarted
  {
    FromArmed();
    var rest := [Spawn, Report(0), CloseBarrier, BeginStop, Sample, PassBarrier, Dispatch];
    var s0 := Init(1);
    var s1 := Apply(s0, CallStart);
    var s2 := Apply(s1, Mark);
    assert Apply(s2, Arm) == ARMED;
    LeadsMore(s2, rest, STOPPED, Arm);
    LeadsMore(s1, [Arm] + rest, STOPPED, Mark);
    LeadsMore(s0, [Mark] + ([Arm] + rest), STOPPED, CallStart);
  }

  lemma {:induction false} FromArmed()
    ensures Leads(ARMED, [Spawn, Report(0), CloseBarrier, BeginStop, Sample, PassBarrier, Dispatch], STOPPED)
  {
    StopAll();
    var stop := [BeginStop, Sample, PassBarrier, Dispatch];
    var s4 := Apply(ARMED, Spawn);
    var s5 := Apply(s4, Report(0));
    assert Apply(s5, CloseBarrier) == REPORTED;
    LeadsMore(s5, stop, STOPPED, CloseBarrier);
    LeadsMore(s4, [CloseBarrier] + stop, STOPPED, Report(0));
    LeadsMore(ARMED, [Report(0)] + ([CloseBarrier] + stop), STOPPED, Spawn);
    assert [Spawn] + ([Report(0)] + ([CloseBarrier] + stop))
        == [Spawn, Report(0), CloseBarrier, BeginStop, Sample, PassBarrier, Dispatch];
  }

  lemma {:induction false} StopAll()
    ensures Leads(REPORTED, [BeginStop, Sample, PassBarrier, Dispatch], STOPPED)
  {
    var s1 := Apply(REPORTED, BeginStop);
    var s2 := Apply(s1, Sample);
    var s3 := Apply(s2, PassBarrier);
    assert Apply(s3, Dispatch) == STOPPED;
    LeadsMore(s3, [], STOPPED, Dispatch);
    LeadsMore(s2, [Dispatch], STOPPED, PassBarrier);
    LeadsMore(s1, [PassBarrier, Dispatch], STOPPED, Sample);
    LeadsMore(REPORTED, [Sample, PassBarrier, Dispatch], STOPPED, BeginStop);
  }

  lemma {:induction false} LeadsMore(s: State, steps: seq<Step>, s': State, st: Step)
    requires Enabled(s, st) && Leads(Apply(s, st), steps, s')
    ensures Leads(s, [st] + steps, s')
  {
    assert ([st] + steps)[1..] == steps;
  }
}
