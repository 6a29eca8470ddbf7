/** The thread pool and futures of scripts/build.py as interleaved steps: workers take
    tasks from a shared queue, run them, store the result and set the event; clients
    submit; the main thread submits uploads and waits for all of them. */
module ThreadPool {
  import opened Basics

  type TaskId = nat
  type WorkerId = nat

  datatype Function = Function(name: nat)
  datatype Args = Args(values: seq<int>)

  /** A function call either returns a value, raises an Exception, or ends its thread
      with something that is no Exception (SystemExit, KeyboardInterrupt). */
  datatype Outcome = Value(value: int) | Raised(error: int) | Fatal

  /** One entry of the work queue: [f, args, future]; the future is named by its task. */
  datatype Task = Task(func: Function, args: Args)

  datatype Future = Future(result: Option<Outcome>, event: bool)

  datatype Worker =
    | Waiting                                 // in work_queue.get()
    | Running(task: TaskId)                   // in func(*args)
    | Storing(task: TaskId, result: Outcome)  // about to assign future.result
    | Setting(task: TaskId)                   // about to call future.event.set()
    | Dead                                    // its thread has ended

  /** The main thread: outside wait_uploads, calling the k-th future inside it, or
      stopped by the exception (or interrupt) that came out of it. */
  datatype Main = Idle | Calling(k: nat) | Stopped

  /** An execution of a task's function. */
  datatype Execution = Execution(worker: WorkerId, task: TaskId, func: Function, args: Args, outcome: Outcome)

  datatype Pool = Pool(
    tasks: seq<Task>,                  // all tasks ever submitted; a TaskId is an index
    queue: seq<TaskId>,
    workers: map<WorkerId, Worker>,
    futures: seq<Future>,
    uploads: seq<TaskId>,              // self.futures of the build object
    main: Main,
    log: seq<Execution>)               // history: executions that have finished

  function AllWaiting(workers: nat): (m: map<WorkerId, Worker>)
    ensures forall w :: w in m ==> m[w] == Waiting
    ensures forall w: nat :: w in m <==> w < workers
  {
    if workers == 0 then map[] else AllWaiting(workers - 1)[workers - 1 := Waiting]
  }

  function Init(workers: nat): Pool {
    Pool([], [], AllWaiting(workers), [], [], Idle, [])
  }

  datatype Step =
    | Submit(task: Task)
    | Upload(task: Task)
    | Get(w: WorkerId)
    | Finish(w: WorkerId, outcome: Outcome)
    | Store(w: WorkerId)
    | SetEvent(w: WorkerId)
    | Wait
    | CallReturns
    | CallRaises
    | Interrupt
    | WaitDone

  predicate Enabled(s: Pool, step: Step) {
    match step
    case Submit(_) => true
    case Upload(_) => s.main == Idle
    case Get(w) => w in s.workers && s.workers[w] == Waiting && s.queue != []
    case Finish(w, _) => w in s.workers && s.workers[w].Running?
    case Store(w) => w in s.workers && s.workers[w].Storing?
    case SetEvent(w) => w in s.workers && s.workers[w].Setting?
    case Wait => s.main == Idle
    case CallReturns => AtSetEvent(s) && !Failed(s)
    case CallRaises => AtSetEvent(s) && Failed(s)
    case Interrupt => s.main.Calling? && s.main.k < |s.uploads|
    case WaitDone => s.main.Calling? && s.main.k == |s.uploads|
  }

  /** The main thread has seen the event of the future it is calling. */
  predicate AtSetEvent(s: Pool) {
    && s.main.Calling? && s.main.k < |s.uploads|
    && s.uploads[s.main.k] < |s.futures| && s.futures[s.uploads[s.main.k]].event
  }

  /** isinstance(self.result, Exception) for that future. */
  predicate Failed(s: Pool)
    requires AtSetEvent(s)
  {
    var r := s.futures[s.uploads[s.main.k]].result;
    r.Some? && r.value.Raised?
  }

  /** The task a worker holds, if any. */
  function Held(w: Worker): Option<TaskId> {
    match w
    case Waiting => None
    case Running(t) => Some(t)
    case Storing(t, _) => Some(t)
    case Setting(t) => Some(t)
    case Dead => None
  }

  predicate WellFormed(s: Pool) {
    && |s.futures| == |s.tasks|
    && (forall i :: 0 <= i < |s.queue| ==> s.queue[i] < |s.tasks|)
    && (forall i :: 0 <= i < |s.uploads| ==> s.uploads[i] < |s.tasks|)
    && (forall w :: w in s.workers ==> Held(s.workers[w]).Some? ==> Held(s.workers[w]).value < |s.tasks|)
  }

  function Added(s: Pool, task: Task): Pool {
    s.(tasks := s.tasks + [task], futures := s.futures + [Future(None, false)], queue := s.queue + [|s.tasks|])
  }

  /** The effect of a step. */
  function Next(s: Pool, step: Step): Pool
    requires WellFormed(s) && Enabled(s, step)
  {
    match step
    case Submit(task) => Added(s, task)
    case Upload(task) => Added(s, task).(uploads := s.uploads + [|s.tasks|])
    case Get(w) => s.(queue := s.queue[1..], workers := s.workers[w := Running(s.queue[0])])
    case Finish(w, o) =>
      var t := s.workers[w].task;
      var done := Execution(w, t, s.tasks[t].func, s.tasks[t].args, o);
      s.(workers := s.workers[w := if o.Fatal? then Dead else Storing(t, o)], log := s.log + [done])
    case Store(w) =>
      var t := s.workers[w].task;
      s.(futures := s.futures[t := s.futures[t].(result := Some(s.workers[w].result))],
         workers := s.workers[w := Setting(t)])
    case SetEvent(w) =>
      var t := s.workers[w].task;
      s.(futures := s.futures[t := s.futures[t].(event := true)], workers := s.workers[w := Waiting])
    case Wait => s.(main := Calling(0))
    case CallReturns => s.(main := Calling(s.main.k + 1))
    case CallRaises => s.(main := Stopped)
    case Interrupt => s.(main := Stopped)
    case WaitDone => s.(main := Idle, uploads := [])
  }

  /** A run: every state follows from the one before by an enabled step. */
  ghost predicate IsRun(workers: nat, run: seq<Pool>, steps: seq<Step>) {
    && |run| == |steps| + 1 && run[0] == Init(workers)
    && forall i :: 0 <= i < |steps| ==>
         WellFormed(run[i]) && Enabled(run[i], steps[i]) && run[i + 1] == Next(run[i], steps[i])
  }

  /** Without its last step a run is a run. */
  lemma {:induction false} RunFront(workers: nat, run: seq<Pool>, steps: seq<Step>)
    requires IsRun(workers, run, steps) && steps != []
    ensures var n := |steps| - 1;
            IsRun(workers, run[..n + 1], steps[..n]) && run[..n + 1][|steps[..n]|] == run[n]
            && WellFormed(run[n]) && Enabled(run[n], steps[n]) && run[n + 1] == Next(run[n], steps[n])
  {
  }

  // ---- where a task is

  /** Exactly one of: in the queue, being run by a worker, run as the i-th execution. */
  datatype Place = InQueue | With(w: WorkerId) | Ran(i: nat)

  ghost predicate InvAt(s: Pool, place: seq<Place>) {
    && WellFormed(s) && |place| == |s.tasks|
    && Distinct(s.queue)
    && (forall t :: 0 <= t < |place| ==> (t in s.queue <==> place[t] == InQueue))
    && (forall t :: 0 <= t < |place| ==> TaskOk(s, place, t))
    && (forall w :: w in s.workers ==> WorkerOk(s, place, w))
    && (forall i :: 0 <= i < |s.log| ==> s.log[i].task < |place| && place[s.log[i].task] == Ran(i))
    && MainOk(s)
  }

  /** What a task's place says about its future and its worker. */
  ghost predicate TaskOk(s: Pool, place: seq<Place>, t: TaskId)
    requires WellFormed(s) && |place| == |s.tasks| && t < |place|
  {
    var f := s.futures[t];
    match place[t]
    case InQueue => f == Future(None, false)
    case With(w) => f == Future(None, false) && w in s.workers && s.workers[w] == Running(t)
    case Ran(i) =>
      && i < |s.log| && s.log[i].worker in s.workers && OwnExecution(s, t, s.log[i])
      && var o, w := s.log[i].outcome, s.workers[s.log[i].worker];
         if o.Fatal? then f == Future(None, false) && w == Dead
         else f == Future(Some(o), true)
              || (f == Future(None, false) && w == Storing(t, o))
              || (f == Future(Some(o), false) && w == Setting(t))
  }

  ghost predicate OwnExecution(s: Pool, t: TaskId, e: Execution)
    requires t < |s.tasks|
  {
    e.task == t && e.func == s.tasks[t].func && e.args == s.tasks[t].args
  }

  /** What a worker holds is placed with it, and not yet complete. */
  ghost predicate WorkerOk(s: Pool, place: seq<Place>, w: WorkerId)
    requires WellFormed(s) && |place| == |s.tasks| && w in s.workers
  {
    match s.workers[w]
    case Running(t) => place[t] == With(w)
    case Storing(t, o) =>
      place[t].Ran? && place[t].i < |s.log| && s.log[place[t].i].worker == w && s.futures[t] == Future(None, false)
    case Setting(t) =>
      place[t].Ran? && place[t].i < |s.log| && s.log[place[t].i].worker == w && !s.futures[t].event
    case _ => true
  }

  /** The futures already called have completed without an exception. */
  ghost predicate MainOk(s: Pool)
    requires WellFormed(s)
  {
    s.main.Calling? ==>
      && s.main.k <= |s.uploads|
      && forall i :: 0 <= i < s.main.k ==> Completed(s, s.uploads[i])
  }

  ghost predicate Completed(s: Pool, t: TaskId)
    requires t < |s.futures|
  {
    s.futures[t].event && s.futures[t].result.Some? && s.futures[t].result.value.Value?
  }

  /** Where the tasks are after a step. */
  ghost function NextPlace(s: Pool, place: seq<Place>, step: Step): seq<Place>
    requires WellFormed(s) && Enabled(s, step) && |place| == |s.tasks|
  {
    match step
    case Submit(_) => place + [InQueue]
    case Upload(_) => place + [InQueue]
    case Get(w) => place[s.queue[0] := With(w)]
    case Finish(w, _) => place[s.workers[w].task := Ran(|s.log|)]
    case _ => place
  }

  /** Submitting leaves every task before it where it is, and the new one in the queue. */
  lemma {:induction false} SubmitTask(s: Pool, place: seq<Place>, step: Step, t: TaskId)
    requires InvAt(s, place) && Enabled(s, step) && (step.Submit? || step.Upload?) && t <= |place|
    ensures var s', place' := Next(s, step), NextPlace(s, place, step);
            && WellFormed(s') && |place'| == |s'.tasks| == |place| + 1
            && TaskOk(s', place', t) && (t in s'.queue <==> place'[t] == InQueue)
  {
    if t < |place| {
      assert TaskOk(s, place, t);
    }
  }

  lemma {:induction false} SubmitKeepsInv(s: Pool, place: seq<Place>, step: Step)
    requires InvAt(s, place) && Enabled(s, step) && (step.Submit? || step.Upload?)
    ensures InvAt(Next(s, step), NextPlace(s, place, step))
  {
    var s', place' := Next(s, step), NextPlace(s, place, step);
    forall t | 0 <= t < |place'|
      ensures TaskOk(s', place', t) && (t in s'.queue <==> place'[t] == InQueue)
    {
      SubmitTask(s, place, step, t);
    }
    forall w | w in s'.workers
      ensures WorkerOk(s', place', w)
    {
      assert WorkerOk(s, place, w);
    }
  }

  lemma {:induction false} GetKeepsInv(s: Pool, place: seq<Place>, w: WorkerId)
    requires InvAt(s, place) && Enabled(s, Get(w))
    ensures InvAt(Next(s, Get(w)), NextPlace(s, place, Get(w)))
  {
    var s', place' := Next(s, Get(w)), NextPlace(s, place, Get(w));
    var head := s.queue[0];
    assert forall i :: 0 <= i < |s'.queue| ==> s'.queue[i] == s.queue[i + 1];
    forall t | 0 <= t < |place|
      ensures TaskOk(s', place', t) && (t in s'.queue <==> place'[t] == InQueue)
    {
      assert TaskOk(s, place, t);
      assert t in s.queue <==> t == head || t in s'.queue;
    }
    forall v | v in s'.workers
      ensures WorkerOk(s', place', v)
    {
      assert WorkerOk(s, place, v);
    }
  }

  lemma {:induction false} FinishKeepsInv(s: Pool, place: seq<Place>, w: WorkerId, o: Outcome)
    requires InvAt(s, place) && Enabled(s, Finish(w, o))
    ensures InvAt(Next(s, Finish(w, o)), NextPlace(s, place, Finish(w, o)))
  {
    var s', place' := Next(s, Finish(w, o)), NextPlace(s, place, Finish(w, o));
    assert WorkerOk(s, place, w);
    assert TaskOk(s, place, s.workers[w].task);
    forall t | 0 <= t < |place|
      ensures TaskOk(s', place', t)
    {
      assert TaskOk(s, place, t);
    }
    forall v | v in s'.workers
      ensures WorkerOk(s', place', v)
    {
      assert WorkerOk(s, place, v);
    }
  }

  lemma {:induction false} FutureStepKeepsInv(s: Pool, place: seq<Place>, step: Step)
    requires InvAt(s, place) && Enabled(s, step) && (step.Store? || step.SetEvent?)
    ensures InvAt(Next(s, step), place)
  {
    var s' := Next(s, step);
    assert WorkerOk(s, place, step.w);
    assert TaskOk(s, place, s.workers[step.w].task);
    forall t | 0 <= t < |place|
      ensures TaskOk(s', place, t)
    {
      assert TaskOk(s, place, t);
    }
    forall v | v in s'.workers
      ensures WorkerOk(s', place, v)
    {
      assert WorkerOk(s, place, v);
    }
  }

  lemma {:induction false} MainStepKeepsInv(s: Pool, place: seq<Place>, step: Step)
    requires InvAt(s, place) && Enabled(s, step)
    requires step.Wait? || step.CallReturns? || step.CallRaises? || step.Interrupt? || step.WaitDone?
    ensures InvAt(Next(s, step), place)
  {
    var s' := Next(s, step);
    forall t | 0 <= t < |place|
      ensures TaskOk(s', place, t)
    {
      assert TaskOk(s, place, t);
    }
    forall v | v in s'.workers
      ensures WorkerOk(s', place, v)
    {
      assert WorkerOk(s, place, v);
    }
    if step.CallReturns? {
      assert TaskOk(s, place, s.uploads[s.main.k]);
    }
  }

  lemma {:induction false} StepKeepsInv(s: Pool, place: seq<Place>, step: Step)
    requires InvAt(s, place) && Enabled(s, step)
    ensures InvAt(Next(s, step), NextPlace(s, place, step))
  {
    match step
    case Submit(_) => SubmitKeepsInv(s, place, step);
    case Upload(_) => SubmitKeepsInv(s, place, step);
    case Get(w) => GetKeepsInv(s, place, w);
    case Finish(w, o) => FinishKeepsInv(s, place, w, o);
    case Store(_) => FutureStepKeepsInv(s, place, step);
    case SetEvent(_) => FutureStepKeepsInv(s, place, step);
    case _ => MainStepKeepsInv(s, place, step);
  }

  /** Every state of every run satisfies the invariant, for some placing of its tasks. */
  lemma {:induction false} ReachableInv(workers: nat, run: seq<Pool>, steps: seq<Step>) returns (place: seq<Place>)
    requires IsRun(workers, run, steps)
    ensures InvAt(run[|steps|], place)
  {
    if steps == [] {
      place := [];
    } else {
      var n := |steps| - 1;
      RunFront(workers, run, steps);
      var before := ReachableInv(workers, run[..n + 1], steps[..n]);
      StepKeepsInv(run[n], before, steps[n]);
      place := NextPlace(run[n], before, steps[n]);
    }
  }

  // ---- a run told from its steps alone

  predicate Submits(step: Step) { step.Submit? || step.Upload? }

  /** The tasks submitted, in their order; a future has the number of its task here. */
  function Submitted(steps: seq<Step>): seq<Task> {
    if steps == [] then []
    else Submitted(Front(steps)) + if Submits(Last(steps)) then [Last(steps).task] else []
  }

  /** The numbers of the uploads since the list was cleared last. */
  function Uploading(steps: seq<Step>): seq<TaskId> {
    if steps == [] || Last(steps) == WaitDone then []
    else Uploading(Front(steps)) + if Last(steps).Upload? then [|Submitted(Front(steps))|] else []
  }

  /** How many tasks were fetched from the queue. */
  function Fetched(steps: seq<Step>): nat {
    if steps == [] then 0 else Fetched(Front(steps)) + if Last(steps).Get? then 1 else 0
  }

  /** What the functions did, in the order in which they ended. */
  function Ended(steps: seq<Step>): seq<(WorkerId, Outcome)> {
    if steps == [] then []
    else Ended(Front(steps)) + if Last(steps).Finish? then [(Last(steps).w, Last(steps).outcome)] else []
  }

  function Front(steps: seq<Step>): seq<Step>
    requires steps != []
  {
    steps[..|steps| - 1]
  }

  function Last(steps: seq<Step>): Step
    requires steps != []
  {
    steps[|steps| - 1]
  }

  /** The queue holds the tasks that were submitted and not fetched yet, first in, first out. */
  ghost predicate Fifo(queue: seq<TaskId>, fetched: nat, submitted: nat) {
    fetched + |queue| == submitted && forall i :: 0 <= i < |queue| ==> queue[i] == fetched + i
  }

  ghost predicate LogsEnds(log: seq<Execution>, ended: seq<(WorkerId, Outcome)>) {
    |log| == |ended| && forall i :: 0 <= i < |log| ==> (log[i].worker, log[i].outcome) == ended[i]
  }

  /** The state in terms of the steps that led to it. */
  ghost predicate Told(s: Pool, steps: seq<Step>) {
    && s.tasks == Submitted(steps) && s.uploads == Uploading(steps)
    && Fifo(s.queue, Fetched(steps), |s.tasks|) && LogsEnds(s.log, Ended(steps))
  }

  lemma {:induction false} StepTold(s: Pool, steps: seq<Step>)
    requires steps != [] && WellFormed(s) && Enabled(s, Last(steps)) && Told(s, Front(steps))
    ensures Told(Next(s, Last(steps)), steps)
  {
    var step, s' := Last(steps), Next(s, Last(steps));
    assert s'.tasks == Submitted(steps);
    assert s'.uploads == Uploading(steps);
    assert LogsEnds(s'.log, Ended(steps));
    assert Fifo(s'.queue, Fetched(steps), |s'.tasks|);
  }

  /** In every run the tasks of the pool are those submitted, unchanged and in their order;
      the queue is first in, first out; the list of uploads holds those since it was cleared
      last; and the outcomes logged are those of the calls. */
  lemma {:induction false} RunTold(workers: nat, run: seq<Pool>, steps: seq<Step>)
    requires IsRun(workers, run, steps)
    ensures Told(run[|steps|], steps)
  {
    if steps != [] {
      var n := |steps| - 1;
      RunFront(workers, run, steps);
      RunTold(workers, run[..n + 1], steps[..n]);
      StepTold(run[n], steps);
    }
  }

  /** The future that step i returned. */
  function FutureOf(steps: seq<Step>, i: nat): TaskId
    requires i < |steps|
  {
    |Submitted(steps[..i])|
  }

  lemma {:induction false} SubmittedAt(steps: seq<Step>, i: nat)
    requires i < |steps| && Submits(steps[i])
    ensures FutureOf(steps, i) < |Submitted(steps)| && Submitted(steps)[FutureOf(steps, i)] == steps[i].task
  {
    if i < |steps| - 1 {
      SubmittedAt(Front(steps), i);
      assert Front(steps)[..i] == steps[..i];
    }
  }

  lemma {:induction false} SubmittedBy(steps: seq<Step>, t: TaskId) returns (i: nat)
    requires t < |Submitted(steps)|
    ensures i < |steps| && Submits(steps[i]) && FutureOf(steps, i) == t
  {
    if t == |Submitted(Front(steps))| {
      i := |steps| - 1;
    } else {
      i := SubmittedBy(Front(steps), t);
      assert Front(steps)[..i] == steps[..i];
    }
  }

  // ---- what clients rely on

  /** The execution ran what step i submitted: its function on its arguments, for its future. */
  ghost predicate Runs(e: Execution, steps: seq<Step>, i: nat) {
    i < |steps| && Submits(steps[i]) && e.task == FutureOf(steps, i) && Task(e.func, e.args) == steps[i].task
  }

  ghost predicate RunsSubmitted(e: Execution, steps: seq<Step>) {
    exists i: nat :: Runs(e, steps, i)
  }

  /** Every execution ran what some step submitted. */
  lemma {:induction false} ExecutionRuns(s: Pool, steps: seq<Step>, place: seq<Place>, k: nat)
    requires Told(s, steps) && InvAt(s, place) && k < |s.log|
    ensures RunsSubmitted(s.log[k], steps)
  {
    assert TaskOk(s, place, s.log[k].task);
    var i := SubmittedBy(steps, s.log[k].task);
    SubmittedAt(steps, i);
    assert Runs(s.log[k], steps, i);
  }

  /** In every interleaving a submission is executed at most once; every execution is one of
      a submitted function on the arguments it was submitted with; and nobody is running a
      task that has been executed or is being run by somebody else. */
  lemma {:induction false} ExactlyOneWorkerPerTask(workers: nat, run: seq<Pool>, steps: seq<Step>)
    requires IsRun(workers, run, steps)
    ensures var s := run[|steps|];
            && (forall k, l :: 0 <= k < l < |s.log| ==> s.log[k].task != s.log[l].task)
            && (forall k :: 0 <= k < |s.log| ==> RunsSubmitted(s.log[k], steps))
            && (forall k, w :: 0 <= k < |s.log| && w in s.workers ==> s.workers[w] != Running(s.log[k].task))
            && (forall v, w :: v in s.workers && w in s.workers && v != w && s.workers[v].Running? ==>
                  s.workers[v] != s.workers[w])
  {
    var s := run[|steps|];
    var place := ReachableInv(workers, run, steps);
    RunTold(workers, run, steps);
    forall k | 0 <= k < |s.log|
      ensures RunsSubmitted(s.log[k], steps)
    {
      ExecutionRuns(s, steps, place, k);
    }
    forall w | w in s.workers
      ensures s.workers[w].Running? ==> place[s.workers[w].task] == With(w)
    {
      assert WorkerOk(s, place, w);
    }
  }

  /** In every interleaving, when the event of the future that step i returned is set, it
      holds what the call of the function submitted there, on the arguments submitted there,
      ended with. */
  lemma {:induction false} SetEventMeansOwnResult(workers: nat, run: seq<Pool>, steps: seq<Step>, i: nat) returns (k: nat)
    requires IsRun(workers, run, steps) && i < |steps| && Submits(steps[i])
    ensures FutureOf(steps, i) < |run[|steps|].futures|
    ensures run[|steps|].futures[FutureOf(steps, i)].event ==>
              && k < |run[|steps|].log| && k < |Ended(steps)| && Runs(run[|steps|].log[k], steps, i)
              && run[|steps|].futures[FutureOf(steps, i)].result == Some(Ended(steps)[k].1) && !Ended(steps)[k].1.Fatal?
  {
    var s, t := run[|steps|], FutureOf(steps, i);
    var place := ReachableInv(workers, run, steps);
    RunTold(workers, run, steps);
    SubmittedAt(steps, i);
    k := 0;
    if s.futures[t].event {
      assert TaskOk(s, place, t);
      k := place[t].i;
    }
  }

  /** wait_uploads clears the list only when every future in it has completed without
      an exception; no other step shortens the list. */
  lemma {:induction false} ListClearedOnlyWhenComplete(workers: nat, run: seq<Pool>, steps: seq<Step>)
    requires IsRun(workers, run, steps) && steps != []
    ensures var n := |steps| - 1;
            !(run[n].uploads <= run[n + 1].uploads) ==>
              && steps[n] == WaitDone
              && (forall i :: 0 <= i < |run[n].uploads| ==>
                    run[n].uploads[i] < |run[n].futures| && Completed(run[n], run[n].uploads[i]))
  {
    var n := |steps| - 1;
    RunFront(workers, run, steps);
    var place := ReachableInv(workers, run[..n + 1], steps[..n]);
  }

  /** wait_uploads raises at the first future of the list that holds an exception: those before
      it have completed. */
  lemma {:induction false} RaisesFirstFailure(workers: nat, run: seq<Pool>, steps: seq<Step>) returns (k: nat)
    requires IsRun(workers, run, steps) && steps != [] && Last(steps) == CallRaises
    ensures var uploads, futures := Uploading(steps), run[|steps|].futures;
            && k < |uploads| && uploads[k] < |futures|
            && futures[uploads[k]].event && futures[uploads[k]].result.Some? && futures[uploads[k]].result.value.Raised?
            && forall j :: 0 <= j < k ==> uploads[j] < |futures| && Completed(run[|steps|], uploads[j])
  {
    var n := |steps| - 1;
    RunFront(workers, run, steps);
    var place := ReachableInv(workers, run[..n + 1], steps[..n]);
    RunTold(workers, run, steps);
    k := run[n].main.k;
  }

  /** Steps of the main thread. */
  predicate MainStep(step: Step) {
    step.Upload? || step.Wait? || step.CallReturns? || step.CallRaises? || step.Interrupt? || step.WaitDone?
  }

  /** Inside wait_uploads the main thread waits for nothing but the event of one future of
      the list; stopped, it never goes on; outside, it may always submit and wait. */
  ghost predicate MainFree(s: Pool, uploads: seq<TaskId>) {
    match s.main
    case Stopped => forall step :: Enabled(s, step) ==> !MainStep(step)
    case Idle => Enabled(s, Wait) && forall task :: Enabled(s, Upload(task))
    case Calling(k) =>
      if k == |uploads| then Enabled(s, WaitDone)
      else k < |uploads| && uploads[k] < |s.futures|
           && (s.futures[uploads[k]].event <==> Enabled(s, CallReturns) || Enabled(s, CallRaises))
  }

  lemma {:induction false} MainIsFree(s: Pool)
    requires WellFormed(s) && MainOk(s)
    ensures MainFree(s, s.uploads)
  {
  }

  lemma {:induction false} MainWaitsForEvent(workers: nat, run: seq<Pool>, steps: seq<Step>)
    requires IsRun(workers, run, steps)
    ensures MainFree(run[|steps|], Uploading(steps))
  {
    var place := ReachableInv(workers, run, steps);
    RunTold(workers, run, steps);
    MainIsFree(run[|steps|]);
  }

  /** After an exception or an interrupt inside wait_uploads the main thread neither submits
      nor waits any more; the workers may go on. */
  lemma {:induction false} StopsForGood(workers: nat, run: seq<Pool>, steps: seq<Step>, i: nat, j: nat)
    requires IsRun(workers, run, steps) && i < j <= |steps| && (steps[i].CallRaises? || steps[i].Interrupt?)
    ensures run[j].main == Stopped && (j < |steps| ==> !MainStep(steps[j]))
  {
    if i + 1 < j {
      StopsForGood(workers, run, steps, i, j - 1);
    }
    assert WellFormed(run[j - 1]) && Enabled(run[j - 1], steps[j - 1]) && run[j] == Next(run[j - 1], steps[j - 1]);
    if j < |steps| {
      assert Enabled(run[j], steps[j]);
    }
  }

  // ---- progress

  /** Worker steps a task still needs: Get, Finish, Store, SetEvent. */
  ghost function Stages(s: Pool, place: seq<Place>, t: TaskId): nat
    requires WellFormed(s) && |place| == |s.tasks| && t < |place|
  {
    match place[t]
    case InQueue => 4
    case With(_) => 3
    case Ran(i) =>
      if s.futures[t].event || (i < |s.log| && s.log[i].outcome.Fatal?) then 0
      else if s.futures[t].result.None? then 2 else 1
  }

  ghost function Owed(s: Pool, place: seq<Place>, n: nat): nat
    requires WellFormed(s) && |place| == |s.tasks| && n <= |place|
  {
    if n == 0 then 0 else Owed(s, place, n - 1) + Stages(s, place, n - 1)
  }

  predicate IsWorkerStep(step: Step) { step.Get? || step.Finish? || step.Store? || step.SetEvent? }

  /** Changing one task's stage changes the sum by as much. */
  lemma {:induction false} OwedChanges(s: Pool, p: seq<Place>, s': Pool, p': seq<Place>, n: nat, t: TaskId)
    requires WellFormed(s) && WellFormed(s') && |p| == |s.tasks| && |p'| == |s'.tasks| && n <= |p| && n <= |p'|
    requires forall u :: 0 <= u < n && u != t ==> Stages(s', p', u) == Stages(s, p, u)
    ensures t >= n ==> Owed(s', p', n) == Owed(s, p, n)
    ensures t < n ==> Owed(s', p', n) == Owed(s, p, n) - Stages(s, p, t) + Stages(s', p', t)
  {
    if n > 0 {
      OwedChanges(s, p, s', p', n - 1, t);
    }
  }

  /** The task a worker step is about. */
  function Subject(s: Pool, step: Step): TaskId
    requires WellFormed(s) && Enabled(s, step) && IsWorkerStep(step)
  {
    if step.Get? then s.queue[0] else s.workers[step.w].task
  }

  predicate IsFatal(step: Step) { step.Finish? && step.outcome.Fatal? }

  /** How many stages of its task a step takes care of: a fatal one also of those that now
      never come. */
  function Cost(step: Step): nat {
    if IsFatal(step) then 3 else if IsWorkerStep(step) then 1 else 0
  }

  /** A worker step brings its task that much further and leaves the others. */
  lemma {:induction false} WorkerStepStages(s: Pool, place: seq<Place>, step: Step)
    requires InvAt(s, place) && Enabled(s, step) && IsWorkerStep(step)
    ensures WellFormed(Next(s, step))
    ensures var s', place', t := Next(s, step), NextPlace(s, place, step), Subject(s, step);
            && t < |place| && Stages(s', place', t) + Cost(step) == Stages(s, place, t)
            && forall u :: 0 <= u < |place| && u != t ==> Stages(s', place', u) == Stages(s, place, u)
  {
    StepKeepsInv(s, place, step);
    var s', place', t := Next(s, step), NextPlace(s, place, step), Subject(s, step);
    assert WorkerOk(s, place, step.w);
    assert TaskOk(s, place, t);
    forall u | 0 <= u < |place| && u != t
      ensures Stages(s', place', u) == Stages(s, place, u)
    {
      assert TaskOk(s, place, u);
    }
  }

  lemma {:induction false} OwedDrops(s: Pool, place: seq<Place>, step: Step)
    requires InvAt(s, place) && Enabled(s, step)
    ensures InvAt(Next(s, step), NextPlace(s, place, step))
    ensures var s', place' := Next(s, step), NextPlace(s, place, step);
            Owed(s', place', |place'|) + Cost(step) == Owed(s, place, |place|) + 4 * (|place'| - |place|)
  {
    StepKeepsInv(s, place, step);
    var s', place' := Next(s, step), NextPlace(s, place, step);
    if IsWorkerStep(step) {
      WorkerStepStages(s, place, step);
      OwedChanges(s, place, s', place', |place|, Subject(s, step));
    } else {
      OwedChanges(s, place, s', place', |place|, |place|);
    }
  }

  function WorkerSteps(steps: seq<Step>): nat {
    if steps == [] then 0
    else WorkerSteps(Front(steps)) + if IsWorkerStep(Last(steps)) then 1 else 0
  }

  function Fatals(steps: seq<Step>): nat {
    if steps == [] then 0
    else Fatals(Front(steps)) + if IsFatal(Last(steps)) then 1 else 0
  }

  /** Every worker step is one of four that some task pays for; a fatal one uses up three. */
  lemma {:induction false} WorkerStepsPaidFor(workers: nat, run: seq<Pool>, steps: seq<Step>) returns (place: seq<Place>)
    requires IsRun(workers, run, steps)
    ensures InvAt(run[|steps|], place)
    ensures WorkerSteps(steps) + 2 * Fatals(steps) + Owed(run[|steps|], place, |place|) == 4 * |run[|steps|].tasks|
  {
    if steps == [] {
      place := [];
    } else {
      var n := |steps| - 1;
      RunFront(workers, run, steps);
      var before := WorkerStepsPaidFor(workers, run[..n + 1], steps[..n]);
      place := PaidStep(run[n], before, steps, WorkerSteps(Front(steps)) + 2 * Fatals(Front(steps)));
    }
  }

  lemma {:induction false} PaidStep(s: Pool, before: seq<Place>, steps: seq<Step>, paid: nat) returns (place: seq<Place>)
    requires steps != [] && InvAt(s, before) && Enabled(s, Last(steps))
    requires paid == WorkerSteps(Front(steps)) + 2 * Fatals(Front(steps)) && paid + Owed(s, before, |before|) == 4 * |s.tasks|
    ensures var s' := Next(s, Last(steps));
            InvAt(s', place) && WorkerSteps(steps) + 2 * Fatals(steps) + Owed(s', place, |place|) == 4 * |s'.tasks|
  {
    place := NextPlace(s, before, Last(steps));
    OwedDrops(s, before, Last(steps));
  }

  /** The execution of a task ended its worker's thread, so its future never completes. */
  ghost predicate Lost(s: Pool, t: TaskId) {
    exists i :: 0 <= i < |s.log| && s.log[i].task == t && s.log[i].outcome.Fatal?
  }

  ghost predicate Settled(s: Pool, t: TaskId)
    requires t < |s.futures|
  {
    s.futures[t].event || Lost(s, t)
  }

  lemma {:induction false} OwedZeroIff(s: Pool, place: seq<Place>, n: nat)
    requires WellFormed(s) && |place| == |s.tasks| && n <= |place|
    ensures Owed(s, place, n) == 0 <==> forall t :: 0 <= t < n ==> Stages(s, place, t) == 0
  {
    if n > 0 {
      OwedZeroIff(s, place, n - 1);
    }
  }

  /** Workers cannot run for ever: in every run there are at most four worker steps per
      task, less two for each execution that was fatal; and there are exactly that many
      once every task has completed or was lost, and not before. */
  lemma {:induction false} WorkersTerminate(workers: nat, run: seq<Pool>, steps: seq<Step>)
    requires IsRun(workers, run, steps)
    ensures WorkerSteps(steps) + 2 * Fatals(steps) <= 4 * |run[|steps|].tasks|
    ensures WorkerSteps(steps) + 2 * Fatals(steps) == 4 * |run[|steps|].tasks|
       <==> forall t :: 0 <= t < |run[|steps|].futures| ==> Settled(run[|steps|], t)
  {
    var s := run[|steps|];
    var place := WorkerStepsPaidFor(workers, run, steps);
    OwedZeroIff(s, place, |place|);
    forall t | 0 <= t < |s.futures|
      ensures Stages(s, place, t) == 0 <==> Settled(s, t)
    {
      SettledIff(s, place, t);
    }
  }

  /** A task needs no more worker steps exactly if it has completed or was lost. */
  lemma {:induction false} SettledIff(s: Pool, place: seq<Place>, t: TaskId)
    requires InvAt(s, place) && t < |place|
    ensures Stages(s, place, t) == 0 <==> s.futures[t].event || Lost(s, t)
  {
    assert TaskOk(s, place, t);
    if Lost(s, t) {
      var i :| 0 <= i < |s.log| && s.log[i].task == t && s.log[i].outcome.Fatal?;
      assert place[s.log[i].task] == Ran(i);
    }
  }

  /** While some worker lives, the workers come to rest exactly when every task has
      completed or was lost with its thread. */
  lemma {:induction false} AtRestIffSettled(workers: nat, run: seq<Pool>, steps: seq<Step>, w: WorkerId)
    requires IsRun(workers, run, steps) && w in run[|steps|].workers && run[|steps|].workers[w] != Dead
    ensures (forall step :: IsWorkerStep(step) ==> !Enabled(run[|steps|], step))
       <==> (forall t :: 0 <= t < |run[|steps|].futures| ==> Settled(run[|steps|], t))
  {
    var s := run[|steps|];
    var place := ReachableInv(workers, run, steps);
    if t :| 0 <= t < |s.futures| && !Settled(s, t) {
      NoDeadlock(workers, run, steps, t, w);
    }
    if step :| IsWorkerStep(step) && Enabled(s, step) {
      StepIsForUnsettled(s, place, step);
    }
  }

  lemma {:induction false} StepIsForUnsettled(s: Pool, place: seq<Place>, step: Step)
    requires InvAt(s, place) && Enabled(s, step) && IsWorkerStep(step)
    ensures Subject(s, step) < |s.futures| && !Settled(s, Subject(s, step))
  {
    WorkerStepStages(s, place, step);
    SettledIff(s, place, Subject(s, step));
  }

  /** Workers do not get stuck: while a task has neither completed nor been lost and
      some worker is alive, some worker step is enabled. */
  lemma {:induction false} NoDeadlock(workers: nat, run: seq<Pool>, steps: seq<Step>, t: TaskId, w: WorkerId)
    requires IsRun(workers, run, steps) && t < |run[|steps|].futures|
    requires w in run[|steps|].workers && run[|steps|].workers[w] != Dead
    requires !run[|steps|].futures[t].event && !Lost(run[|steps|], t)
    ensures exists step :: IsWorkerStep(step) && Enabled(run[|steps|], step)
  {
    var s := run[|steps|];
    var place := ReachableInv(workers, run, steps);
    assert TaskOk(s, place, t);
    match place[t] {
      case InQueue => LiveWorkerCanStep(s, w);
      case With(v) => LiveWorkerCanStep(s, v);
      case Ran(i) => LiveWorkerCanStep(s, s.log[i].worker);
    }
  }

  /** A live worker only ever waits for an empty queue. */
  lemma {:induction false} LiveWorkerCanStep(s: Pool, w: WorkerId)
    requires w in s.workers && s.workers[w] != Dead && (s.workers[w] == Waiting ==> s.queue != [])
    ensures exists step :: IsWorkerStep(step) && Enabled(s, step)
  {
    match s.workers[w]
    case Waiting => assert IsWorkerStep(Get(w)) && Enabled(s, Get(w));
    case Running(_) => assert IsWorkerStep(Finish(w, Fatal)) && Enabled(s, Finish(w, Fatal));
    case Storing(_, _) => assert IsWorkerStep(Store(w)) && Enabled(s, Store(w));
    case Setting(_) => assert IsWorkerStep(SetEvent(w)) && Enabled(s, SetEvent(w));
    case Dead =>
  }
}
