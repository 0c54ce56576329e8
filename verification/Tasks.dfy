/**
 * Task queues with retry: the synchronous loop, and the asynchronous queue with any number of
 * workers as interleaved steps. Between two awaits that can suspend, a worker runs atomically.
 */
module Tasks {
  import opened Basics

  datatype TaskState =
    | Queued | Started | Skipped | RetryScheduled | Succeeded | FailedPermanent | FailedExhausted

  /** What telemetry records. */
  datatype Event = Event(state: TaskState, attempt: int, maxAttempts: int)

  /** What a handler call does: raise, return a plain value, or return a TaskRunResult. */
  datatype Outcome = Raised | Value | RunResult(state: TaskState, retryable: bool)

  predicate Retries(o: Outcome, attempt: int, maxAttempts: int) {
    o.RunResult? && o.state == RetryScheduled && o.retryable && attempt < maxAttempts
  }

  /** The recorded state when the task is not retried. */
  function Terminal(o: Outcome): (s: TaskState)
    ensures s != RetryScheduled
  {
    match o
    case Raised => FailedPermanent
    case Value => Succeeded
    case RunResult(s, _) => if s == RetryScheduled then FailedExhausted else s
  }

  /** The outcomes of successive handler calls of one task. */
  type Script = nat -> Outcome

  // ----- the synchronous loop -----

  /** Events from the start of an attempt on. */
  function Attempts(attempt: int, maxAttempts: int, script: Script, call: nat): seq<Event>
    decreases Max(0, maxAttempts - attempt)
  {
    [Event(Started, attempt, maxAttempts)] +
    if Retries(script(call), attempt, maxAttempts) then
      [Event(RetryScheduled, attempt, maxAttempts), Event(Queued, attempt + 1, maxAttempts)]
      + Attempts(attempt + 1, maxAttempts, script, call + 1)
    else
      [Event(Terminal(script(call)), attempt, maxAttempts)]
  }

  function FullTrace(attempt: int, maxAttempts: int, script: Script): seq<Event> {
    [Event(Queued, attempt, maxAttempts)] + Attempts(attempt, maxAttempts, script, 0)
  }

  /** SyncTaskQueue.enqueue: runs the handler until it is not retried. The attempt metadata, when the
      caller passes it, is used as it comes. */
  method SyncEnqueue(attemptMeta: Option<int>, maxMeta: Option<int>, registeredMax: int, script: Script)
    returns (trace: seq<Event>)
    ensures trace == FullTrace(if attemptMeta.Some? then attemptMeta.value else 1,
                               if maxMeta.Some? then maxMeta.value else registeredMax, script)
  {
    var attempt := if attemptMeta.Some? then attemptMeta.value else 1;
    var maxAttempts := if maxMeta.Some? then maxMeta.value else registeredMax;
    ghost var first := attempt;
    trace := [Event(Queued, attempt, maxAttempts)];
    var calls := 0;
    while true
      invariant calls == attempt - first
      invariant trace + Attempts(attempt, maxAttempts, script, calls) == FullTrace(first, maxAttempts, script)
      decreases Max(0, maxAttempts - attempt)
    {
      trace := trace + [Event(Started, attempt, maxAttempts)];
      var result := script(calls);
      calls := calls + 1;
      if Retries(result, attempt, maxAttempts) {
        trace := trace + [Event(RetryScheduled, attempt, maxAttempts), Event(Queued, attempt + 1, maxAttempts)];
        attempt := attempt + 1;
        continue;
      }
      trace := trace + [Event(Terminal(result), attempt, maxAttempts)];
      return;
    }
  }

  // ----- the shape of a trace -----

  /** Everything recorded until the given attempt is queued, the attempts before it having been retried. */
  function History(first: int, attempt: int, maxAttempts: int): seq<Event>
    decreases attempt - first
  {
    if attempt <= first then [Event(Queued, first, maxAttempts)]
    else History(first, attempt - 1, maxAttempts)
         + [Event(Started, attempt - 1, maxAttempts), Event(RetryScheduled, attempt - 1, maxAttempts),
            Event(Queued, attempt, maxAttempts)]
  }

  /** A retried attempt may be counted with what went before or with what comes. */
  lemma {:induction false} RetryShifts(first: int, attempt: int, maxAttempts: int, script: Script, call: nat)
    requires first <= attempt && Retries(script(call), attempt, maxAttempts)
    ensures History(first, attempt, maxAttempts) + Attempts(attempt, maxAttempts, script, call)
         == History(first, attempt + 1, maxAttempts) + Attempts(attempt + 1, maxAttempts, script, call + 1)
  {
  }

  lemma {:induction false} AttemptsShape(first: int, attempt: int, maxAttempts: int, script: Script, call: nat)
    returns (last: int, final: TaskState)
    requires first <= attempt && (attempt == first || attempt <= maxAttempts)
    ensures attempt <= last && (last == first || last <= maxAttempts) && final != RetryScheduled
    ensures final == Terminal(script(call + (last - attempt)))
    ensures History(first, attempt, maxAttempts) + Attempts(attempt, maxAttempts, script, call)
            == History(first, last, maxAttempts) + [Event(Started, last, maxAttempts), Event(final, last, maxAttempts)]
    decreases Max(0, maxAttempts - attempt)
  {
    if Retries(script(call), attempt, maxAttempts) {
      last, final := AttemptsShape(first, attempt + 1, maxAttempts, script, call + 1);
      RetryShifts(first, attempt, maxAttempts, script, call);
    } else {
      last, final := attempt, Terminal(script(call));
    }
  }

  /** A full trace is: queued, then started and rescheduled any number of times with attempts counting up by
      one and never past the maximum, then started once more and exactly one other state, the last. */
  lemma TraceShape(first: int, maxAttempts: int, script: Script) returns (last: int, final: TaskState)
    ensures first <= last && (last == first || last <= maxAttempts) && final != RetryScheduled
    ensures final == Terminal(script(last - first))
    ensures FullTrace(first, maxAttempts, script)
            == History(first, last, maxAttempts) + [Event(Started, last, maxAttempts), Event(final, last, maxAttempts)]
  {
    last, final := AttemptsShape(first, first, maxAttempts, script, 0);
  }

  // ----- the asynchronous queue -----

  datatype Phase = Waiting | Running | Done

  datatype Task = Task(first: int, attempt: int, maxAttempts: int, script: Script, calls: nat,
                       phase: Phase, trace: seq<Event>)

  datatype Item = Job(id: nat) | Sentinel

  /** Finishing is between the end of an item's work and its task_done. */
  datatype Worker = Idle | Busy(id: nat) | Finishing(exiting: bool) | Exited

  /** Tasks are numbered in the order they were accepted; late are the jobs put after stop began, in order. */
  datatype State = State(tasks: seq<Task>, queue: seq<Item>, workers: seq<Worker>,
                         unfinished: int, stopping: bool, late: seq<nat>)

  datatype Action =
    | Enqueue(attemptMeta: Option<int>, maxMeta: Option<int>, registeredMax: int, script: Script)
    | Get(w: nat) | Finish(w: nat) | TaskDone(w: nat)
    | Stop

  predicate Enabled(s: State, a: Action) {
    match a
    case Enqueue(_, _, _, _) => true
    case Get(w) =>
      && w < |s.workers| && s.workers[w].Idle?
      && s.queue != [] && (s.queue[0].Job? ==> s.queue[0].id < |s.tasks|)
    case Finish(w) => w < |s.workers| && s.workers[w].Busy? && s.workers[w].id < |s.tasks|
    case TaskDone(w) => w < |s.workers| && s.workers[w].Finishing?
    case Stop => !s.stopping
  }

  /** The clamped attempt metadata of AsyncTaskQueue. */
  function NewTask(attemptMeta: Option<int>, maxMeta: Option<int>, registeredMax: int, script: Script): Task {
    var attempt := Max(1, if attemptMeta.Some? then attemptMeta.value else 1);
    var maxAttempts := Max(1, if maxMeta.Some? then maxMeta.value else registeredMax);
    Task(attempt, attempt, maxAttempts, script, 0, Waiting, [Event(Queued, attempt, maxAttempts)])
  }

  function Begin(t: Task): Task {
    t.(phase := Running, trace := t.trace + [Event(Started, t.attempt, t.maxAttempts)])
  }

  /** The end of one handler call: rescheduled, or settled. */
  function End(t: Task): Task {
    var result := t.script(t.calls);
    if Retries(result, t.attempt, t.maxAttempts) then
      t.(phase := Waiting, attempt := t.attempt + 1, calls := t.calls + 1,
         trace := t.trace + [Event(RetryScheduled, t.attempt, t.maxAttempts),
                             Event(Queued, t.attempt + 1, t.maxAttempts)])
    else
      t.(phase := Done, calls := t.calls + 1, trace := t.trace + [Event(Terminal(result), t.attempt, t.maxAttempts)])
  }

  function Sentinels(n: nat): seq<Item> { seq(n, _ => Sentinel) }

  function Put(s: State, id: nat): State {
    s.(queue := s.queue + [Job(id)], unfinished := s.unfinished + 1,
       late := if s.stopping then s.late + [id] else s.late)
  }

  function Apply(s: State, a: Action): State
    requires Enabled(s, a)
  {
    match a
    case Enqueue(attemptMeta, maxMeta, registeredMax, script) =>
      Put(s, |s.tasks|).(tasks := s.tasks + [NewTask(attemptMeta, maxMeta, registeredMax, script)])
    case Get(w) =>
      if s.queue[0].Job? then
        var id := s.queue[0].id;
        s.(queue := s.queue[1..], workers := s.workers[w := Busy(id)], tasks := s.tasks[id := Begin(s.tasks[id])])
      else
        s.(queue := s.queue[1..], workers := s.workers[w := Finishing(true)])
    case Finish(w) =>
      var id := s.workers[w].id;
      var task := End(s.tasks[id]);
      var t := s.(tasks := s.tasks[id := task], workers := s.workers[w := Finishing(false)]);
      if task.phase == Waiting then Put(t, id) else t
    case TaskDone(w) =>
      s.(unfinished := s.unfinished - 1, workers := s.workers[w := if s.workers[w].exiting then Exited else Idle])
    case Stop =>
      s.(queue := s.queue + Sentinels(|s.workers|), unfinished := s.unfinished + |s.workers|, stopping := true)
  }

  function Next(s: State, a: Action): State {
    if Enabled(s, a) then Apply(s, a) else s
  }

  function Exec(workerCount: int, actions: seq<Action>): State {
    if actions == [] then State([], [], seq(Max(1, workerCount), _ => Idle), 0, false, [])
    else Next(Exec(workerCount, actions[..|actions| - 1]), actions[|actions| - 1])
  }

  // ----- what every step keeps -----

  /** The trace so far, continued by the synchronous loop, is the synchronous trace. */
  ghost predicate TaskInv(t: Task) {
    && FullTrace(t.first, t.maxAttempts, t.script) ==
         (match t.phase
          case Waiting => t.trace + Attempts(t.attempt, t.maxAttempts, t.script, t.calls)
          case Running => t.trace + Attempts(t.attempt, t.maxAttempts, t.script, t.calls)[1..]
          case Done => t.trace)
    && 1 <= t.first <= t.attempt && (t.attempt == t.first || t.attempt <= t.maxAttempts)
  }

  lemma BeginKeepsTaskInv(t: Task)
    requires TaskInv(t) && t.phase == Waiting
    ensures TaskInv(Begin(t))
  {
    var rest := Attempts(t.attempt, t.maxAttempts, t.script, t.calls);
    assert rest == [Event(Started, t.attempt, t.maxAttempts)] + rest[1..];
    assert t.trace + rest == (t.trace + [Event(Started, t.attempt, t.maxAttempts)]) + rest[1..];
  }

  /** What the synchronous loop records after the start of an attempt. */
  lemma AfterStart(t: Task)
    ensures var rest := Attempts(t.attempt, t.maxAttempts, t.script, t.calls)[1..];
      if Retries(t.script(t.calls), t.attempt, t.maxAttempts) then
        rest == [Event(RetryScheduled, t.attempt, t.maxAttempts), Event(Queued, t.attempt + 1, t.maxAttempts)]
                + Attempts(t.attempt + 1, t.maxAttempts, t.script, t.calls + 1)
      else
        rest == [Event(Terminal(t.script(t.calls)), t.attempt, t.maxAttempts)]
  {
  }

  lemma Extend<T>(full: seq<T>, trace: seq<T>, rest: seq<T>, more: seq<T>, tail: seq<T>)
    requires full == trace + rest && rest == more + tail
    ensures full == (trace + more) + tail
  {
  }

  lemma EndKeepsTaskInv(t: Task)
    requires TaskInv(t) && t.phase == Running
    ensures TaskInv(End(t))
  {
    AfterStart(t);
    var full := FullTrace(t.first, t.maxAttempts, t.script);
    var rest := Attempts(t.attempt, t.maxAttempts, t.script, t.calls)[1..];
    if Retries(t.script(t.calls), t.attempt, t.maxAttempts) {
      Extend(full, t.trace, rest,
             [Event(RetryScheduled, t.attempt, t.maxAttempts), Event(Queued, t.attempt + 1, t.maxAttempts)],
             Attempts(t.attempt + 1, t.maxAttempts, t.script, t.calls + 1));
    }
  }

  /** Each waiting task is in the queue, once. */
  ghost predicate QueuePlaces(tasks: seq<Task>, queue: seq<Item>) {
    && (forall i :: 0 <= i < |queue| && queue[i].Job? ==> queue[i].id < |tasks| && tasks[queue[i].id].phase == Waiting)
    && (forall i, j :: 0 <= i < j < |queue| && queue[i].Job? ==> queue[i] != queue[j])
    && (forall id :: 0 <= id < |tasks| && tasks[id].phase == Waiting ==> Job(id) in queue)
  }

  /** Each running task is with a worker, one. */
  ghost predicate WorkerPlaces(tasks: seq<Task>, workers: seq<Worker>) {
    && (forall w :: 0 <= w < |workers| && workers[w].Busy? ==>
          workers[w].id < |tasks| && tasks[workers[w].id].phase == Running)
    && (forall w, v :: 0 <= w < v < |workers| && workers[w].Busy? ==> workers[w] != workers[v])
    && (forall id :: 0 <= id < |tasks| && tasks[id].phase == Running ==> Busy(id) in workers)
  }

  ghost predicate PlaceInv(s: State) {
    QueuePlaces(s.tasks, s.queue) && WorkerPlaces(s.tasks, s.workers)
  }

  function Active(workers: seq<Worker>): nat {
    if workers == [] then 0
    else Active(workers[..|workers| - 1])
         + (if workers[|workers| - 1].Busy? || workers[|workers| - 1].Finishing? then 1 else 0)
  }

  /** Workers that have taken their sentinel. */
  function Leaving(workers: seq<Worker>): nat {
    if workers == [] then 0
    else Leaving(workers[..|workers| - 1])
         + (if workers[|workers| - 1] == Exited || workers[|workers| - 1] == Finishing(true) then 1 else 0)
  }

  lemma {:induction false} CountUpdate(workers: seq<Worker>, w: nat, x: Worker)
    requires w < |workers|
    ensures Active(workers[w := x]) == Active(workers)
              - (if workers[w].Busy? || workers[w].Finishing? then 1 else 0)
              + (if x.Busy? || x.Finishing? then 1 else 0)
    ensures Leaving(workers[w := x]) == Leaving(workers)
              - (if workers[w] == Exited || workers[w] == Finishing(true) then 1 else 0)
              + (if x == Exited || x == Finishing(true) then 1 else 0)
  {
    var n := |workers| - 1;
    if w < n {
      CountUpdate(workers[..n], w, x);
      assert workers[w := x][..n] == workers[..n][w := x];
    } else {
      assert workers[w := x][..n] == workers[..n];
    }
  }

  ghost predicate CountInv(s: State) {
    s.unfinished == |s.queue| + Active(s.workers)
  }

  /** After stop: jobs, then the sentinels not yet taken, then the jobs put since. */
  ghost predicate AfterStop(queue: seq<Item>, late: seq<nat>, left: int) {
    var early := |queue| - |late| - left;
    && left >= 0 && early >= 0 && (left == 0 ==> early == 0)
    && (forall i :: 0 <= i < |queue| ==> (queue[i].Sentinel? <==> early <= i < early + left))
    && forall k :: 0 <= k < |late| ==> queue[early + left + k] == Job(late[k])
  }

  ghost predicate StopInv(s: State) {
    if s.stopping then AfterStop(s.queue, s.late, |s.workers| - Leaving(s.workers))
    else s.late == [] && Leaving(s.workers) == 0 && forall i :: 0 <= i < |s.queue| ==> s.queue[i].Job?
  }

  ghost predicate TasksInv(tasks: seq<Task>) {
    forall id :: 0 <= id < |tasks| ==> TaskInv(tasks[id])
  }

  ghost predicate Inv(s: State) {
    s.workers != [] && TasksInv(s.tasks) && PlaceInv(s) && CountInv(s) && StopInv(s)
  }

  lemma TasksUpdate(tasks: seq<Task>, id: nat, t: Task)
    requires TasksInv(tasks) && id < |tasks| && TaskInv(t)
    ensures TasksInv(tasks[id := t])
  {
  }

  lemma TasksAppend(tasks: seq<Task>, t: Task)
    requires TasksInv(tasks) && TaskInv(t)
    ensures TasksInv(tasks + [t])
  {
  }

  lemma NewTaskInv(attemptMeta: Option<int>, maxMeta: Option<int>, registeredMax: int, script: Script)
    ensures TaskInv(NewTask(attemptMeta, maxMeta, registeredMax, script))
  {
  }

  lemma TasksStep(s: State, a: Action)
    requires TasksInv(s.tasks) && PlaceInv(s) && Enabled(s, a)
    ensures TasksInv(Apply(s, a).tasks)
  {
    match a
    case Get(_) =>
      if s.queue[0].Job? {
        BeginKeepsTaskInv(s.tasks[s.queue[0].id]);
        TasksUpdate(s.tasks, s.queue[0].id, Begin(s.tasks[s.queue[0].id]));
      }
    case Finish(w) =>
      EndKeepsTaskInv(s.tasks[s.workers[w].id]);
      TasksUpdate(s.tasks, s.workers[w].id, End(s.tasks[s.workers[w].id]));
    case Enqueue(attemptMeta, maxMeta, registeredMax, script) =>
      NewTaskInv(attemptMeta, maxMeta, registeredMax, script);
      TasksAppend(s.tasks, NewTask(attemptMeta, maxMeta, registeredMax, script));
    case _ =>
  }

  lemma PlaceGet(s: State, w: nat)
    requires PlaceInv(s) && Enabled(s, Get(w))
    ensures PlaceInv(Apply(s, Get(w)))
  {
    var t := Apply(s, Get(w));
    assert forall i :: 0 <= i < |t.queue| ==> t.queue[i] == s.queue[i + 1];
    forall id | 0 <= id < |t.tasks| && t.tasks[id].phase == Waiting ensures Job(id) in t.queue {
      assert Job(id) in s.queue && Job(id) != s.queue[0];
    }
    forall id | 0 <= id < |t.tasks| && t.tasks[id].phase == Running ensures Busy(id) in t.workers {
      if s.queue[0] == Job(id) { assert t.workers[w] == Busy(id); }
      else { StillBusy(s.workers, w, t.workers[w], id); }
    }
  }

  lemma StillBusy(workers: seq<Worker>, w: nat, x: Worker, id: nat)
    requires w < |workers| && workers[w] != Busy(id) && Busy(id) in workers
    ensures Busy(id) in workers[w := x]
  {
    var v :| 0 <= v < |workers| && workers[v] == Busy(id);
    assert workers[w := x][v] == Busy(id);
  }

  /** A task that is not waiting changes, and joins the queue if it now is. */
  lemma QueueChange(tasks: seq<Task>, queue: seq<Item>, id: nat, t: Task)
    requires QueuePlaces(tasks, queue) && id < |tasks| && tasks[id].phase != Waiting
    ensures QueuePlaces(tasks[id := t], if t.phase == Waiting then queue + [Job(id)] else queue)
  {
    var queue' := if t.phase == Waiting then queue + [Job(id)] else queue;
    assert forall i :: 0 <= i < |queue| ==> queue'[i] == queue[i] != Job(id);
    forall other | 0 <= other < |tasks| && tasks[id := t][other].phase == Waiting ensures Job(other) in queue' {
      if other == id { assert queue'[|queue|] == Job(id); } else { assert Job(other) in queue; }
    }
  }

  lemma QueueAfterFinish(s: State, w: nat)
    requires PlaceInv(s) && Enabled(s, Finish(w))
    ensures QueuePlaces(Apply(s, Finish(w)).tasks, Apply(s, Finish(w)).queue)
  {
    QueueChange(s.tasks, s.queue, s.workers[w].id, End(s.tasks[s.workers[w].id]));
  }

  lemma WorkersAfterFinish(s: State, w: nat)
    requires WorkerPlaces(s.tasks, s.workers) && Enabled(s, Finish(w))
    ensures WorkerPlaces(Apply(s, Finish(w)).tasks, Apply(s, Finish(w)).workers)
  {
    var t := Apply(s, Finish(w));
    forall other | 0 <= other < |t.tasks| && t.tasks[other].phase == Running ensures Busy(other) in t.workers {
      StillBusy(s.workers, w, Finishing(false), other);
    }
  }

  lemma PlaceOther(s: State, a: Action)
    requires PlaceInv(s) && Enabled(s, a) && (a.Enqueue? || a.TaskDone? || a.Stop?)
    ensures PlaceInv(Apply(s, a))
  {
    var t := Apply(s, a);
    assert s.queue <= t.queue;
    forall id | 0 <= id < |t.tasks| && t.tasks[id].phase == Waiting ensures Job(id) in t.queue {
      if id == |s.tasks| { assert t.queue[|s.queue|] == Job(id); }
      else { assert Job(id) in s.queue; }
    }
    forall id | 0 <= id < |t.tasks| && t.tasks[id].phase == Running ensures Busy(id) in t.workers {
      if a.TaskDone? { StillBusy(s.workers, a.w, t.workers[a.w], id); }
    }
  }

  lemma PlaceStep(s: State, a: Action)
    requires PlaceInv(s) && Enabled(s, a)
    ensures PlaceInv(Apply(s, a))
  {
    match a
    case Get(w) => PlaceGet(s, w);
    case Finish(w) =>
      QueueAfterFinish(s, w);
      WorkersAfterFinish(s, w);
    case _ => PlaceOther(s, a);
  }

  lemma CountStep(s: State, a: Action)
    requires CountInv(s) && Enabled(s, a)
    ensures CountInv(Apply(s, a))
  {
    match a
    case Get(w) => CountUpdate(s.workers, w, Apply(s, a).workers[w]);
    case Finish(w) => CountUpdate(s.workers, w, Finishing(false));
    case TaskDone(w) => CountUpdate(s.workers, w, Apply(s, a).workers[w]);
    case _ =>
  }

  lemma {:induction false} IdleIsNotLeaving(workers: seq<Worker>)
    ensures Leaving(workers) <= |workers|
    ensures Leaving(workers) == |workers| ==>
              forall w :: 0 <= w < |workers| ==> workers[w] == Exited || workers[w] == Finishing(true)
  {
    if workers == [] {
    } else {
      IdleIsNotLeaving(workers[..|workers| - 1]);
    }
  }

  lemma StopGet(s: State, w: nat)
    requires StopInv(s) && s.workers != [] && Enabled(s, Get(w))
    ensures StopInv(Apply(s, Get(w)))
  {
    IdleIsNotLeaving(s.workers);
    CountUpdate(s.workers, w, Apply(s, Get(w)).workers[w]);
  }

  lemma PutAfterStop(queue: seq<Item>, late: seq<nat>, left: int, id: nat)
    requires AfterStop(queue, late, left)
    ensures AfterStop(queue + [Job(id)], late + [id], left)
  {
  }

  lemma StopPut(s: State, id: nat)
    requires StopInv(s)
    ensures StopInv(Put(s, id))
  {
    if s.stopping { PutAfterStop(s.queue, s.late, |s.workers| - Leaving(s.workers), id); }
  }

  lemma StopFinish(s: State, w: nat)
    requires StopInv(s) && Enabled(s, Finish(w))
    ensures StopInv(Apply(s, Finish(w)))
  {
    var id := s.workers[w].id;
    var t := s.(tasks := s.tasks[id := End(s.tasks[id])], workers := s.workers[w := Finishing(false)]);
    CountUpdate(s.workers, w, Finishing(false));
    assert StopInv(t);
    StopPut(t, id);
  }

  lemma StopTaskDone(s: State, w: nat)
    requires StopInv(s) && s.workers != [] && Enabled(s, TaskDone(w))
    ensures StopInv(Apply(s, TaskDone(w)))
  {
    CountUpdate(s.workers, w, Apply(s, TaskDone(w)).workers[w]);
  }

  lemma StopBegins(s: State)
    requires StopInv(s) && s.workers != [] && Enabled(s, Stop)
    ensures StopInv(Apply(s, Stop))
  {
  }

  lemma StopEnqueue(s: State, a: Action)
    requires StopInv(s) && a.Enqueue?
    ensures StopInv(Apply(s, a))
  {
    StopPut(s, |s.tasks|);
  }

  lemma StopStep(s: State, a: Action)
    requires StopInv(s) && s.workers != [] && Enabled(s, a)
    ensures StopInv(Apply(s, a))
  {
    match a
    case Get(w) => StopGet(s, w);
    case Finish(w) => StopFinish(s, w);
    case TaskDone(w) => StopTaskDone(s, w);
    case Stop => StopBegins(s);
    case Enqueue(_, _, _, _) => StopEnqueue(s, a);
  }

  lemma InvStep(s: State, a: Action)
    requires Inv(s)
    ensures Inv(Next(s, a))
  {
    if Enabled(s, a) {
      TasksStep(s, a);
      PlaceStep(s, a);
      CountStep(s, a);
      StopStep(s, a);
    }
  }

  lemma {:induction false} IdleWorkersCount(n: nat)
    ensures Active(seq(n, _ => Idle)) == 0 && Leaving(seq(n, _ => Idle)) == 0
  {
    if n == 0 {
    } else {
      IdleWorkersCount(n - 1);
      assert seq(n, _ => Idle)[..n - 1] == seq(n - 1, _ => Idle);
    }
  }

  lemma {:induction false} InvExec(workerCount: int, actions: seq<Action>)
    ensures Inv(Exec(workerCount, actions))
  {
    if actions == [] {
      IdleWorkersCount(Max(1, workerCount));
    } else {
      InvExec(workerCount, actions[..|actions| - 1]);
      InvStep(Exec(workerCount, actions[..|actions| - 1]), actions[|actions| - 1]);
    }
  }

  // ----- main results -----

  /** For any number of workers, any interleaving and any handler outcomes, each accepted task's trace is a
      prefix of the one the synchronous loop records, and the task is done exactly when it is all of it. */
  lemma AsyncRefinesSync(workerCount: int, actions: seq<Action>, id: nat)
    requires id < |Exec(workerCount, actions).tasks|
    ensures var t := Exec(workerCount, actions).tasks[id];
      && t.trace <= FullTrace(t.first, t.maxAttempts, t.script)
      && (t.phase == Done <==> t.trace == FullTrace(t.first, t.maxAttempts, t.script))
  {
    InvExec(workerCount, actions);
    AfterStart(Exec(workerCount, actions).tasks[id]);
  }

  /** The two queues agree on a task exactly when its metadata is already at least one: the synchronous
      queue does not clamp it. Without metadata, on every registered task. */
  lemma SyncAgreesWhenClamped(attempt: int, maxAttempts: int, script: Script)
    ensures var t := NewTask(Some(attempt), Some(maxAttempts), 1, script);
      FullTrace(attempt, maxAttempts, script) == FullTrace(t.first, t.maxAttempts, t.script)
      <==> attempt >= 1 && maxAttempts >= 1
  {
    var t := NewTask(Some(attempt), Some(maxAttempts), 1, script);
    assert FullTrace(attempt, maxAttempts, script)[0] == Event(Queued, attempt, maxAttempts);
    assert FullTrace(t.first, t.maxAttempts, t.script)[0] == Event(Queued, t.first, t.maxAttempts);
  }

  /** The unfinished count is what is queued plus what is in hand; it is zero, so join returns, only when
      every accepted task, with all its retries, is done. */
  lemma JoinMeansAllDone(workerCount: int, actions: seq<Action>)
    ensures var s := Exec(workerCount, actions);
      && s.unfinished == |s.queue| + Active(s.workers)
      && (s.unfinished == 0 ==> forall id :: 0 <= id < |s.tasks| ==> s.tasks[id].phase == Done)
  {
    InvExec(workerCount, actions);
    var s := Exec(workerCount, actions);
    if s.unfinished == 0 {
      forall id | 0 <= id < |s.tasks| ensures s.tasks[id].phase == Done {
        if Busy(id) in s.workers {
          var w :| 0 <= w < |s.workers| && s.workers[w] == Busy(id);
          ActiveIsPositive(s.workers, w);
        }
      }
    }
  }

  lemma ActiveIsPositive(workers: seq<Worker>, w: nat)
    requires w < |workers| && (workers[w].Busy? || workers[w].Finishing?)
    ensures Active(workers) > 0
  {
    CountUpdate(workers, w, Idle);
  }

  // ----- stop -----

  function Jobs(ids: seq<nat>): (r: seq<Item>)
    ensures |r| == |ids| && forall i :: 0 <= i < |r| ==> r[i] == Job(ids[i])
  {
    seq(|ids|, i requires 0 <= i < |ids| => Job(ids[i]))
  }

  lemma QueueIsLate(s: State)
    requires StopInv(s) && s.workers != [] && Leaving(s.workers) == |s.workers|
    ensures s.queue == Jobs(s.late)
  {
  }

  lemma UndoneAreQueued(tasks: seq<Task>, late: seq<nat>, id: nat)
    requires QueuePlaces(tasks, Jobs(late)) && id < |tasks|
    ensures tasks[id].phase == Waiting <==> id in late
  {
    if id in late {
      var k :| 0 <= k < |late| && late[k] == id;
      assert Jobs(late)[k] == Job(id);
    }
    if tasks[id].phase == Waiting {
      var k :| 0 <= k < |late| && Jobs(late)[k] == Job(id);
      assert late[k] == id;
    }
  }

  lemma NobodyRuns(tasks: seq<Task>, workers: seq<Worker>, id: nat)
    requires WorkerPlaces(tasks, workers) && id < |tasks|
    requires forall w :: 0 <= w < |workers| ==> workers[w] == Exited
    ensures tasks[id].phase != Running
  {
  }

  /** When stop has ended every worker, the queue holds exactly the jobs put after stop began, in their order, and the
      tasks not done are those jobs' tasks: everything put before was run. */
  lemma StopLeavesOnlyLateJobs(workerCount: int, actions: seq<Action>)
    requires forall w :: 0 <= w < |Exec(workerCount, actions).workers| ==>
               Exec(workerCount, actions).workers[w] == Exited
    ensures var s := Exec(workerCount, actions);
      && s.queue == Jobs(s.late)
      && forall id :: 0 <= id < |s.tasks| ==> (s.tasks[id].phase != Done <==> id in s.late)
  {
    InvExec(workerCount, actions);
    var s := Exec(workerCount, actions);
    AllLeft(s.workers);
    QueueIsLate(s);
    forall id | 0 <= id < |s.tasks| ensures s.tasks[id].phase != Done <==> id in s.late {
      UndoneAreQueued(s.tasks, s.late, id);
      NobodyRuns(s.tasks, s.workers, id);
    }
  }

  lemma ExecLast(workerCount: int, before: seq<Action>, a: Action)
    ensures Exec(workerCount, before + [a]) == Next(Exec(workerCount, before), a)
  {
    assert (before + [a])[..|before|] == before;
  }

  /** A retry is put late when stop begins during the attempt: the task stays queued for good. */
  lemma StopCanLoseARetry(script: Script) returns (actions: seq<Action>)
    requires script(0) == RunResult(RetryScheduled, true)
    ensures var s := Exec(1, actions);
      s.workers == [Exited] && |s.tasks| == 1 && s.tasks[0].phase == Waiting && s.tasks[0].attempt == 2
  {
    actions := [];
    var task := NewTask(None, Some(2), 1, script);
    ExecLast(1, actions, Enqueue(None, Some(2), 1, script)); actions := actions + [Enqueue(None, Some(2), 1, script)];
    assert Exec(1, actions) == State([task], [Job(0)], [Idle], 1, false, []);
    ExecLast(1, actions, Get(0)); actions := actions + [Get(0)];
    assert Exec(1, actions) == State([Begin(task)], [], [Busy(0)], 1, false, []);
    ExecLast(1, actions, Stop); actions := actions + [Stop];
    assert Exec(1, actions) == State([Begin(task)], [Sentinel], [Busy(0)], 2, true, []);
    ExecLast(1, actions, Finish(0)); actions := actions + [Finish(0)];
    assert Exec(1, actions) == State([End(Begin(task))], [Sentinel, Job(0)], [Finishing(false)], 3, true, [0]);
    LoseAfterFinish(actions, End(Begin(task)));
    actions := actions + [TaskDone(0)] + [Get(0)] + [TaskDone(0)];
  }

  lemma LoseAfterFinish(actions: seq<Action>, task: Task)
    requires Exec(1, actions) == State([task], [Sentinel, Job(0)], [Finishing(false)], 3, true, [0])
    ensures Exec(1, actions + [TaskDone(0)] + [Get(0)] + [TaskDone(0)])
         == State([task], [Job(0)], [Exited], 1, true, [0])
  {
    ExecLast(1, actions, TaskDone(0));
    ExecLast(1, actions + [TaskDone(0)], Get(0));
    ExecLast(1, actions + [TaskDone(0)] + [Get(0)], TaskDone(0));
  }

  lemma {:induction false} AllLeft(workers: seq<Worker>)
    requires forall w :: 0 <= w < |workers| ==> workers[w] == Exited
    ensures Leaving(workers) == |workers|
  {
    if workers == [] {
    } else {
      AllLeft(workers[..|workers| - 1]);
    }
  }

  // ----- bounded work -----

  function TaskWork(t: Task): nat {
    var attemptsLeft := Max(0, t.maxAttempts - t.attempt);
    match t.phase
    case Waiting => 3 * attemptsLeft + 3
    case Running => 3 * attemptsLeft + 2
    case Done => 0
  }

  function TasksWork(tasks: seq<Task>): nat {
    if tasks == [] then 0 else TasksWork(tasks[..|tasks| - 1]) + TaskWork(tasks[|tasks| - 1])
  }

  function SentinelWork(queue: seq<Item>): nat {
    if queue == [] then 0
    else (if queue[0].Sentinel? then 2 else 0) + SentinelWork(queue[1..])
  }

  function FinishWork(workers: seq<Worker>): nat {
    if workers == [] then 0
    else FinishWork(workers[..|workers| - 1]) + (if workers[|workers| - 1].Finishing? then 1 else 0)
  }

  function Work(s: State): nat {
    TasksWork(s.tasks) + SentinelWork(s.queue) + FinishWork(s.workers)
  }

  lemma {:induction false} TasksWorkUpdate(tasks: seq<Task>, id: nat, t: Task)
    requires id < |tasks|
    ensures TasksWork(tasks[id := t]) == TasksWork(tasks) - TaskWork(tasks[id]) + TaskWork(t)
  {
    var n := |tasks| - 1;
    if id < n {
      TasksWorkUpdate(tasks[..n], id, t);
      assert tasks[id := t][..n] == tasks[..n][id := t];
    } else {
      assert tasks[id := t][..n] == tasks[..n];
    }
  }

  lemma {:induction false} FinishWorkUpdate(workers: seq<Worker>, w: nat, x: Worker)
    requires w < |workers|
    ensures FinishWork(workers[w := x]) == FinishWork(workers) - (if workers[w].Finishing? then 1 else 0)
                                           + (if x.Finishing? then 1 else 0)
  {
    var n := |workers| - 1;
    if w < n {
      FinishWorkUpdate(workers[..n], w, x);
      assert workers[w := x][..n] == workers[..n][w := x];
    } else {
      assert workers[w := x][..n] == workers[..n];
    }
  }

  lemma {:induction false} SentinelWorkAppend(queue: seq<Item>, id: nat)
    ensures SentinelWork(queue + [Job(id)]) == SentinelWork(queue)
  {
    if queue == [] {
    } else {
      SentinelWorkAppend(queue[1..], id);
      assert (queue + [Job(id)])[1..] == queue[1..] + [Job(id)];
    }
  }

  lemma GetUsesWork(s: State, w: nat)
    requires PlaceInv(s) && Enabled(s, Get(w))
    ensures Work(Apply(s, Get(w))) < Work(s)
  {
    FinishWorkUpdate(s.workers, w, Apply(s, Get(w)).workers[w]);
    if s.queue[0].Job? { TasksWorkUpdate(s.tasks, s.queue[0].id, Begin(s.tasks[s.queue[0].id])); }
  }

  lemma FinishUsesWork(s: State, w: nat)
    requires PlaceInv(s) && Enabled(s, Finish(w))
    ensures Work(Apply(s, Finish(w))) < Work(s)
  {
    var id := s.workers[w].id;
    assert TaskWork(End(s.tasks[id])) + 1 < TaskWork(s.tasks[id]);
    FinishWorkUpdate(s.workers, w, Finishing(false));
    TasksWorkUpdate(s.tasks, id, End(s.tasks[id]));
    SentinelWorkAppend(s.queue, id);
  }

  /** Every step of a worker uses up work; nothing but a new enqueue or a stop adds any. So once those end,
      the queue runs dry: the remaining attempts bound the number of steps. */
  lemma WorkerStepsUseUpWork(workerCount: int, actions: seq<Action>, a: Action)
    requires Enabled(Exec(workerCount, actions), a) && (a.Get? || a.Finish? || a.TaskDone?)
    ensures Work(Apply(Exec(workerCount, actions), a)) < Work(Exec(workerCount, actions))
  {
    InvExec(workerCount, actions);
    var s := Exec(workerCount, actions);
    match a
    case Get(w) => GetUsesWork(s, w);
    case Finish(w) => FinishUsesWork(s, w);
    case TaskDone(w) => FinishWorkUpdate(s.workers, w, Apply(s, a).workers[w]);
    case _ =>
  }

  /** As long as something is unfinished and a worker is left, some worker can take a step. */
  lemma NeverStuck(workerCount: int, actions: seq<Action>)
    requires Exec(workerCount, actions).unfinished > 0
    requires exists w :: 0 <= w < |Exec(workerCount, actions).workers|
                         && Exec(workerCount, actions).workers[w] != Exited
    ensures exists a: Action :: (a.Get? || a.Finish? || a.TaskDone?) && Enabled(Exec(workerCount, actions), a)
  {
    InvExec(workerCount, actions);
    var s := Exec(workerCount, actions);
    var w :| 0 <= w < |s.workers| && s.workers[w] != Exited;
    if s.workers[w].Busy? {
      assert Enabled(s, Finish(w));
    } else if s.workers[w].Finishing? {
      assert Enabled(s, TaskDone(w));
    } else if s.queue != [] {
      assert Enabled(s, Get(w));
    } else {
      var v := SomeoneActive(s.workers);
      assert Enabled(s, Finish(v)) || Enabled(s, TaskDone(v));
    }
  }

  lemma {:induction false} SomeoneActive(workers: seq<Worker>) returns (v: nat)
    requires Active(workers) > 0
    ensures v < |workers| && (workers[v].Busy? || workers[v].Finishing?)
  {
    var n := |workers| - 1;
    if workers[n].Busy? || workers[n].Finishing? { v := n; } else { v := SomeoneActive(workers[..n]); }
  }
}
