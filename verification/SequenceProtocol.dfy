/**
 jobs::Sequence as a step system.  Its actors are the thread that attaches jobs, any number of threads
 that call stop or join, the destructor, the master thread that pops jobs off the queue, and the
 threads that the master spawns to run them.  A step is what one actor does between two points where
 others can get in: one critical section of the queue mutex, one look at a future, or one call.
 */
module SequenceProtocol {
  import opened Options

  // Where the master thread is: waiting on the condition, holding a popped task, joining the thread
  // that runs it, or between two calls of its loop body.
  datatype Master = Waiting | Popped(job: nat) | Joining(job: nat) | Checking | Exited

  // Where a worker thread is: about to call the body, in the body, having returned from it without
  // success, or done with the task.
  datatype Phase = Starting(attempt: nat) | InBody(attempt: nat) | Polling(attempt: nat) | Ended

  // One start of a job's body; afterStop says whether the stop signal had been given by then.
  datatype Start = Start(job: nat, attempt: nat, afterStop: bool)

  // Jobs are numbered in the order of the attach_job calls.
  datatype State = State(
    attached: nat,
    pending: Option<nat>,
    queue: seq<nat>,
    stopSignal: bool,
    stopped: bool,
    exitSignal: bool,
    destroyed: nat,
    master: Master,
    workers: map<nat, Phase>,
    finished: set<nat>,
    dropped: set<nat>,
    rejected: set<nat>,
    log: seq<Start>)

  const INITIAL := State(0, None, [], false, false, false, 0, Waiting, map[], {}, {}, {}, [])

  datatype Step =
    | Reserve                              // attach_job: the new task's future becomes last_future_
    | Enqueue                              // attach_job: the task goes to the queue, or is refused
    | Stop                                 // stop
    | Destroy                              // the next statement of the destructor
    | Wake                                 // master: the wait is over
    | Spawn                                // master: start a thread for the task
    | Join                                 // master: the thread is joined
    | Check                                // master: go round again unless told to exit
    | Call(job: nat)                       // worker: the body is called
    | Return(job: nat, success: bool)      // worker: it returns; an exception ends the task like success
    | Poll(job: nat)                       // worker: look at the stop signal

  function Elements(q: seq<nat>): set<nat> {
    set j | j in q
  }

  function DoStop(s: State): State {
    s.(queue := [], dropped := s.dropped + Elements(s.queue), stopSignal := true)
  }

  function Refuse(s: State, j: nat): State {
    s.(pending := None, rejected := s.rejected + {j})
  }

  function Accept(s: State, j: nat): State {
    s.(pending := None, queue := s.queue + [j])
  }

  function DoEnqueue(s: State): State {
    match s.pending
    case None => s
    case Some(j) => if s.stopped then Refuse(s, j) else Accept(s, j)
  }

  // stopped_ = true; stop(); master_.stop(); master_.join();
  function DoDestroy(s: State): State {
    match s.destroyed
    case 0 => s.(destroyed := 1, stopped := true)
    case 1 => DoStop(s).(destroyed := 2)
    case 2 => s.(destroyed := 3, exitSignal := true)
    case 3 => if s.master == Exited then s.(destroyed := 4) else s
    case _ => s
  }

  function Pop(s: State): State
    requires s.queue != []
  {
    s.(master := Popped(s.queue[0]), queue := s.queue[1..])
  }

  function DoWake(s: State): State {
    if s.master != Waiting || (s.queue == [] && !s.exitSignal) then s
    else if s.queue == [] then s.(master := Checking)
    else Pop(s)
  }

  function DoPhase(s: State, j: nat, phase: Phase): State {
    s.(workers := s.workers[j := phase])
  }

  function End(s: State, j: nat): State {
    s.(workers := s.workers[j := Ended], finished := s.finished + {j})
  }

  function DoCall(s: State, j: nat): State {
    if j in s.workers && s.workers[j].Starting? then
      var i := s.workers[j].attempt;
      DoPhase(s, j, InBody(i)).(log := s.log + [Start(j, i, s.stopSignal)])
    else s
  }

  function DoReturn(s: State, j: nat, success: bool): State {
    if j in s.workers && s.workers[j].InBody? then
      if success then End(s, j) else DoPhase(s, j, Polling(s.workers[j].attempt))
    else s
  }

  function DoPoll(s: State, j: nat): State {
    if j in s.workers && s.workers[j].Polling? then
      if s.stopSignal then End(s, j) else DoPhase(s, j, Starting(s.workers[j].attempt + 1))
    else s
  }

  // A step that its actor cannot take changes nothing.
  function Do(s: State, step: Step): State {
    match step
    case Reserve =>
      if s.pending.None? then s.(attached := s.attached + 1, pending := Some(s.attached)) else s
    case Enqueue => DoEnqueue(s)
    case Stop => DoStop(s)
    case Destroy => DoDestroy(s)
    case Wake => DoWake(s)
    case Spawn =>
      if s.master.Popped? then
        DoPhase(s, s.master.job, Starting(0)).(master := Joining(s.master.job))
      else s
    case Join =>
      if s.master.Joining? && s.master.job in s.workers && s.workers[s.master.job] == Ended then
        s.(workers := s.workers - {s.master.job}, master := Checking)
      else s
    case Check =>
      if s.master == Checking then s.(master := if s.exitSignal then Exited else Waiting) else s
    case Call(j) => DoCall(s, j)
    case Return(j, success) => DoReturn(s, j, success)
    case Poll(j) => DoPoll(s, j)
  }

  // The state after a run: any interleaving of the actors' steps.
  function After(run: seq<Step>): State {
    if run == [] then INITIAL else Do(After(run[..|run| - 1]), run[|run| - 1])
  }

  /* -------- the invariant -------- */

  // The job that the master has taken off the queue and that is not finished yet, if there is one.
  ghost function InFlight(master: Master, finished: set<nat>): set<nat> {
    match master
    case Popped(j) => {j}
    case Joining(j) => {j} - finished
    case _ => {}
  }

  // Job j was attached before all jobs that still wait.
  ghost predicate BeforeWaiting(s: State, j: nat) {
    && j < s.attached
    && (forall a :: 0 <= a < |s.queue| ==> j < s.queue[a])
    && (s.pending.Some? ==> j < s.pending.value)
  }

  ghost predicate QueueInOrder(s: State) {
    && (forall a, b :: 0 <= a < b < |s.queue| ==> s.queue[a] < s.queue[b])
    && (forall a :: 0 <= a < |s.queue| ==> s.queue[a] < s.attached)
    && (s.pending.Some? ==> s.pending.value + 1 == s.attached)
    && (s.pending.Some? ==> forall a :: 0 <= a < |s.queue| ==> s.queue[a] < s.pending.value)
  }

  ghost predicate SettledFirst(s: State) {
    && (forall j :: j in s.finished || j in s.dropped ==> BeforeWaiting(s, j))
    && (forall j :: j in s.rejected ==> j < s.attached && s.pending != Some(j))
    && (forall a :: 0 <= a < |s.queue| ==> s.queue[a] !in s.rejected)
    && (forall j :: j in InFlight(s.master, s.finished) ==> BeforeWaiting(s, j))
  }

  // Every attached job is somewhere.
  ghost predicate NoneLost(s: State) {
    forall j: nat :: j < s.attached ==>
      || s.pending == Some(j) || j in s.queue || j in InFlight(s.master, s.finished)
      || j in s.finished || j in s.dropped || j in s.rejected
  }

  // No job is in two places; for the waiting ones this follows from their order.
  ghost predicate NoneTwice(s: State) {
    && s.finished !! s.dropped && s.finished !! s.rejected && s.dropped !! s.rejected
    && (forall j: nat :: j in InFlight(s.master, s.finished) ==>
          j !in s.finished && j !in s.dropped && j !in s.rejected)
  }

  // Threads run only while the master joins them.
  ghost predicate OneWorker(s: State) {
    match s.master
    case Joining(j) => s.workers.Keys == {j} && (s.workers[j] == Ended <==> j in s.finished)
    case _ => s.workers.Keys == {}
  }

  // Each body start is the next attempt of the same job, not after a stop, or the first of a later job.
  ghost predicate Follows(prev: Start, next: Start) {
    if next.attempt == 0 then prev.job < next.job
    else prev.job == next.job && prev.attempt + 1 == next.attempt && !prev.afterStop
  }

  ghost predicate LogInOrder(s: State) {
    && (forall i :: 0 < i < |s.log| ==> Follows(s.log[i - 1], s.log[i]))
    && (s.log != [] ==> s.log[0].attempt == 0)
  }

  function Logged(log: seq<Start>): set<nat> {
    set e | e in log :: e.job
  }

  // The jobs whose bodies were called are the finished ones and perhaps the one in flight.
  ghost predicate LogUpToDate(s: State) {
    && s.finished <= Logged(s.log)
    && (forall i :: 0 <= i < |s.log| ==> s.log[i].job in s.finished || s.master == Joining(s.log[i].job))
    && (forall j, k :: j in InFlight(s.master, s.finished) && k in s.finished ==> k < j)
    && (forall i :: 0 <= i < |s.log| && s.log[i].afterStop ==> s.stopSignal)
  }

  // The last entry is the last attempt of the job in flight, if that has made one.
  ghost predicate LastAttempt(s: State) {
    s.master.Joining? && s.master.job in s.workers ==>
      var j := s.master.job;
      match s.workers[j]
      case Starting(a) =>
        if a == 0 then forall i :: 0 <= i < |s.log| ==> s.log[i].job != j
        else s.log != [] && s.log[|s.log| - 1] == Start(j, a - 1, false)
      case InBody(a) => s.log != [] && s.log[|s.log| - 1].job == j && s.log[|s.log| - 1].attempt == a
      case Polling(a) => s.log != [] && s.log[|s.log| - 1].job == j && s.log[|s.log| - 1].attempt == a
      case Ended => true
  }

  ghost predicate Destruction(s: State) {
    && (s.stopped <==> s.destroyed >= 1)
    && (s.destroyed >= 2 ==> s.queue == [] && s.stopSignal)
    && (s.exitSignal <==> s.destroyed >= 3)
    && (s.master == Exited ==> s.exitSignal)
    && (s.destroyed >= 4 ==> s.master == Exited)
    && (s.rejected != {} ==> s.stopped)
    && (s.dropped != {} ==> s.stopSignal)
  }

  ghost predicate Inv(s: State) {
    && QueueInOrder(s) && SettledFirst(s) && NoneLost(s) && NoneTwice(s)
    && OneWorker(s) && LogInOrder(s) && LogUpToDate(s) && LastAttempt(s) && Destruction(s)
  }

  lemma LoggedAppend(log: seq<Start>, e: Start)
    ensures Logged(log + [e]) == Logged(log) + {e.job}
  {
    assert e in log + [e];
  }

  // What the threads do is not touched by what callers do to the queue.
  lemma ThreadsFrame(s: State, s': State)
    requires s' == s.(attached := s'.attached, pending := s'.pending, queue := s'.queue, rejected := s'.rejected)
    ensures OneWorker(s') == OneWorker(s) && LogInOrder(s') == LogInOrder(s)
    ensures LogUpToDate(s') == LogUpToDate(s) && LastAttempt(s') == LastAttempt(s)
  {
  }

  // Where the jobs are is not touched by what threads do, as long as the same job is in flight.
  lemma QueueFrame(s: State, s': State)
    requires s' == s.(master := s'.master, workers := s'.workers, log := s'.log)
    requires InFlight(s'.master, s'.finished) == InFlight(s.master, s.finished)
    ensures QueueInOrder(s') == QueueInOrder(s) && SettledFirst(s') == SettledFirst(s)
    ensures NoneLost(s') == NoneLost(s) && NoneTwice(s') == NoneTwice(s)
  {
  }

  lemma RunningIsInFlight(s: State, j: nat)
    requires OneWorker(s) && j in s.workers && s.workers[j] != Ended
    ensures s.master == Joining(j) && j !in s.finished && InFlight(s.master, s.finished) == {j}
  {
    assert j in s.workers.Keys;
  }

  lemma InvReserve(s: State)
    requires Inv(s)
    ensures Inv(Do(s, Reserve))
  {
    ThreadsFrame(s, Do(s, Reserve));
    ReserveKeepsQueue(s);
    hide OneWorker, LogInOrder, LogUpToDate, LastAttempt, QueueInOrder, SettledFirst, NoneLost, NoneTwice;
  }

  lemma ReserveKeepsQueue(s: State)
    requires QueueInOrder(s) && SettledFirst(s) && NoneLost(s) && NoneTwice(s)
    ensures QueueInOrder(Do(s, Reserve)) && SettledFirst(Do(s, Reserve))
    ensures NoneLost(Do(s, Reserve)) && NoneTwice(Do(s, Reserve))
  {
  }

  lemma InvRefuse(s: State, j: nat)
    requires Inv(s) && s.pending == Some(j) && s.stopped
    ensures Inv(Refuse(s, j))
  {
    ThreadsFrame(s, Refuse(s, j));
    RefuseKeepsQueue(s, j);
    hide QueueInOrder, SettledFirst, NoneLost, NoneTwice, OneWorker, LogInOrder, LogUpToDate, LastAttempt;
  }

  lemma RefuseKeepsQueue(s: State, j: nat)
    requires s.pending == Some(j)
    requires QueueInOrder(s) && SettledFirst(s) && NoneLost(s) && NoneTwice(s)
    ensures QueueInOrder(Refuse(s, j)) && SettledFirst(Refuse(s, j))
    ensures NoneLost(Refuse(s, j)) && NoneTwice(Refuse(s, j))
  {
  }

  lemma InvAccept(s: State, j: nat)
    requires Inv(s) && s.pending == Some(j) && !s.stopped
    ensures Inv(Accept(s, j))
  {
    ThreadsFrame(s, Accept(s, j));
    AcceptKeepsQueue(s, j);
    hide QueueInOrder, SettledFirst, NoneLost, NoneTwice, OneWorker, LogInOrder, LogUpToDate, LastAttempt;
  }

  lemma AcceptKeepsQueue(s: State, j: nat)
    requires s.pending == Some(j)
    requires QueueInOrder(s) && SettledFirst(s) && NoneLost(s) && NoneTwice(s)
    ensures QueueInOrder(Accept(s, j)) && SettledFirst(Accept(s, j))
    ensures NoneLost(Accept(s, j)) && NoneTwice(Accept(s, j))
  {
  }

  lemma InvEnqueue(s: State)
    requires Inv(s)
    ensures Inv(DoEnqueue(s))
  {
    hide Inv, Refuse, Accept;
    if s.pending.Some? {
      if s.stopped {
        InvRefuse(s, s.pending.value);
      } else {
        InvAccept(s, s.pending.value);
      }
    }
  }

  lemma InvStop(s: State)
    requires Inv(s)
    ensures Inv(DoStop(s))
  {
  }

  // The destructor's flags alone do not disturb the rest.
  lemma InvFlags(s: State, s': State)
    requires Inv(s) && Destruction(s')
    requires s' == s.(destroyed := s'.destroyed, stopped := s'.stopped, exitSignal := s'.exitSignal)
    ensures Inv(s')
  {
    hide Destruction;
  }

  lemma InvDestroy(s: State)
    requires Inv(s)
    ensures Inv(DoDestroy(s))
  {
    InvStop(s);
    InvFlags(if s.destroyed == 1 then DoStop(s) else s, DoDestroy(s));
  }

  // The first job of the queue is now in flight, and nothing else has changed.
  lemma InvPop(s: State)
    requires Inv(s) && s.queue != [] && s.master == Waiting
    ensures Inv(Pop(s))
  {
    PopKeepsOrder(s);
    PopKeepsPlaces(s);
    PopKeepsThreads(s);
    hide QueueInOrder, SettledFirst, NoneLost, NoneTwice, OneWorker, LogInOrder, LogUpToDate, LastAttempt;
  }

  lemma PopKeepsOrder(s: State)
    requires s.queue != [] && s.master == Waiting && QueueInOrder(s) && SettledFirst(s)
    ensures QueueInOrder(Pop(s)) && SettledFirst(Pop(s))
  {
  }

  lemma PopKeepsPlaces(s: State)
    requires s.queue != [] && s.master == Waiting && SettledFirst(s) && NoneLost(s) && NoneTwice(s)
    ensures NoneLost(Pop(s)) && NoneTwice(Pop(s))
  {
    assert s.queue == [s.queue[0]] + s.queue[1..];
  }

  lemma PopKeepsThreads(s: State)
    requires s.queue != [] && s.master == Waiting && SettledFirst(s)
    requires OneWorker(s) && LogInOrder(s) && LogUpToDate(s) && LastAttempt(s)
    ensures OneWorker(Pop(s)) && LogInOrder(Pop(s)) && LogUpToDate(Pop(s)) && LastAttempt(Pop(s))
  {
  }

  lemma InvWake(s: State)
    requires Inv(s)
    ensures Inv(DoWake(s))
  {
    if s.master == Waiting && s.queue != [] {
      InvPop(s);
    }
  }

  lemma InvSpawn(s: State)
    requires Inv(s)
    ensures Inv(Do(s, Spawn))
  {
    if s.master.Popped? {
      QueueFrame(s, Do(s, Spawn));
      hide QueueInOrder, SettledFirst, NoneLost;
    }
  }

  lemma InvJoin(s: State)
    requires Inv(s)
    ensures Inv(Do(s, Join))
  {
    var s' := Do(s, Join);
    if s' != s {
      QueueFrame(s, s');
      hide QueueInOrder, SettledFirst, NoneLost, NoneTwice;
    }
  }

  lemma InvCheck(s: State)
    requires Inv(s)
    ensures Inv(Do(s, Check))
  {
    QueueFrame(s, Do(s, Check));
    hide QueueInOrder, SettledFirst, NoneLost, NoneTwice;
  }

  lemma CallFollows(s: State, j: nat)
    requires OneWorker(s) && LogUpToDate(s) && LastAttempt(s)
    requires j in s.workers && s.workers[j].Starting?
    ensures if s.log == [] then s.workers[j].attempt == 0
            else Follows(s.log[|s.log| - 1], Start(j, s.workers[j].attempt, s.stopSignal))
  {
    RunningIsInFlight(s, j);
    if s.log != [] && s.workers[j].attempt == 0 {
      var last := s.log[|s.log| - 1];
      assert last.job in s.finished;
    }
  }

  lemma CallKeepsLog(s: State, j: nat)
    requires OneWorker(s) && LogUpToDate(s) && LastAttempt(s) && LogInOrder(s)
    requires j in s.workers && s.workers[j].Starting?
    ensures LogInOrder(DoCall(s, j))
  {
    CallFollows(s, j);
    hide Follows, LastAttempt, OneWorker, LogUpToDate;
  }

  lemma CallLogs(s: State, j: nat)
    requires OneWorker(s) && LogUpToDate(s) && LastAttempt(s)
    requires j in s.workers && s.workers[j].Starting?
    ensures OneWorker(DoCall(s, j)) && LogUpToDate(DoCall(s, j)) && LastAttempt(DoCall(s, j))
  {
    RunningIsInFlight(s, j);
    CallFollows(s, j);
    LoggedAppend(s.log, Start(j, s.workers[j].attempt, s.stopSignal));
    hide Follows, Logged;
  }

  lemma InvCall(s: State, j: nat)
    requires Inv(s)
    ensures Inv(DoCall(s, j))
  {
    if j in s.workers && s.workers[j].Starting? {
      QueueFrame(s, DoCall(s, j));
      CallKeepsLog(s, j);
      CallLogs(s, j);
      hide QueueInOrder, SettledFirst, NoneLost, NoneTwice, LogInOrder, OneWorker, LogUpToDate, LastAttempt;
    }
  }

  // When a job ends, it moves from being in flight to the finished ones.
  lemma EndKeepsQueue(s: State, j: nat)
    requires InFlight(s.master, s.finished) == {j} && s.master == Joining(j)
    requires QueueInOrder(s) && SettledFirst(s) && NoneLost(s) && NoneTwice(s)
    ensures QueueInOrder(End(s, j)) && SettledFirst(End(s, j)) && NoneLost(End(s, j)) && NoneTwice(End(s, j))
  {
    assert BeforeWaiting(s, j);
    assert InFlight(End(s, j).master, End(s, j).finished) == {};
  }

  lemma InvEnd(s: State, j: nat)
    requires Inv(s) && j in s.workers && (s.workers[j].InBody? || s.workers[j].Polling?)
    ensures Inv(End(s, j))
  {
    RunningIsInFlight(s, j);
    EndKeepsQueue(s, j);
    hide QueueInOrder, SettledFirst, NoneLost, NoneTwice;
  }

  lemma InvPhase(s: State, j: nat, phase: Phase)
    requires Inv(s) && j in s.workers && (s.workers[j].InBody? || s.workers[j].Polling?)
    requires phase == Polling(s.workers[j].attempt)
             || (phase == Starting(s.workers[j].attempt + 1) && !s.stopSignal)
    ensures Inv(DoPhase(s, j, phase))
  {
    RunningIsInFlight(s, j);
    QueueFrame(s, DoPhase(s, j, phase));
    LogFrame(s, DoPhase(s, j, phase));
    hide QueueInOrder, SettledFirst, NoneLost, NoneTwice, LogInOrder, LogUpToDate;
  }

  lemma LogFrame(s: State, s': State)
    requires s' == s.(workers := s'.workers)
    ensures LogInOrder(s') == LogInOrder(s) && LogUpToDate(s') == LogUpToDate(s)
  {
  }

  lemma InvReturn(s: State, j: nat, success: bool)
    requires Inv(s)
    ensures Inv(DoReturn(s, j, success))
  {
    hide Inv, DoPhase, End;
    if j in s.workers && s.workers[j].InBody? {
      if success {
        InvEnd(s, j);
      } else {
        InvPhase(s, j, Polling(s.workers[j].attempt));
      }
    }
  }

  lemma InvPoll(s: State, j: nat)
    requires Inv(s)
    ensures Inv(DoPoll(s, j))
  {
    hide Inv, DoPhase, End;
    if j in s.workers && s.workers[j].Polling? {
      if s.stopSignal {
        InvEnd(s, j);
      } else {
        InvPhase(s, j, Starting(s.workers[j].attempt + 1));
      }
    }
  }

  lemma InvStep(s: State, step: Step)
    requires Inv(s)
    ensures Inv(Do(s, step))
  {
    hide Inv, DoStop, DoEnqueue, DoDestroy, DoWake, DoCall, DoReturn, DoPoll;
    match step
    case Reserve => InvReserve(s);
    case Enqueue => InvEnqueue(s);
    case Stop => InvStop(s);
    case Destroy => InvDestroy(s);
    case Wake => InvWake(s);
    case Spawn => InvSpawn(s);
    case Join => InvJoin(s);
    case Check => InvCheck(s);
    case Call(j) => InvCall(s, j);
    case Return(j, success) => InvReturn(s, j, success);
    case Poll(j) => InvPoll(s, j);
  }

  // Whatever the interleaving, the invariant holds after it.
  lemma {:induction false} InvAlways(run: seq<Step>)
    ensures Inv(After(run))
    decreases |run|
  {
    if run == [] {
    } else {
      InvAlways(run[..|run| - 1]);
      InvStep(After(run[..|run| - 1]), run[|run| - 1]);
    }
  }
}
