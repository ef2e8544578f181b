/**
 What every interleaving of a jobs::Sequence keeps, from the invariant of its step system, and the
 critical sections of the class as methods on its fields.
 */
module SequenceSafety {
  import opened Options
  import opened SequenceProtocol

  // A job that will not run any more, whose future is therefore ready.
  ghost predicate Settled(s: State, j: nat) {
    j in s.finished || j in s.dropped || j in s.rejected
  }

  /* -------- bodies -------- */

  // At most one thread runs at a time, so at most one body does.
  lemma OneBodyAtATime(run: seq<Step>, j: nat, k: nat)
    requires j in After(run).workers && k in After(run).workers
    ensures j == k
  {
    InvAlways(run);
    assert j in After(run).workers.Keys && k in After(run).workers.Keys;
  }

  // Bodies start in the order in which their jobs were attached, and each job's attempts are
  // 0, 1, 2, ... in a row, without another job's in between.
  lemma {:induction false} LogIsSorted(log: seq<Start>, a: nat, b: nat)
    requires a < b < |log| && forall i :: 0 < i < |log| ==> Follows(log[i - 1], log[i])
    ensures log[a].job < log[b].job
            || (log[a].job == log[b].job && log[a].attempt + (b - a) == log[b].attempt && !log[a].afterStop)
    decreases b - a
  {
    assert Follows(log[b - 1], log[b]);
    if a == b - 1 {
    } else {
      LogIsSorted(log, a, b - 1);
    }
  }

  lemma StartsInOrder(run: seq<Step>, a: nat, b: nat)
    requires a < b < |After(run).log|
    ensures var log := After(run).log;
            || log[a].job < log[b].job
            || (log[a].job == log[b].job && log[a].attempt + (b - a) == log[b].attempt)
  {
    InvAlways(run);
    LogIsSorted(After(run).log, a, b);
  }

  // An attempt is the first of its job, or it directly follows the attempt before it.
  lemma NoAttemptSkipped(run: seq<Step>, b: nat)
    requires b < |After(run).log| && After(run).log[b].attempt > 0
    ensures var log := After(run).log;
            b > 0 && log[b - 1].job == log[b].job && log[b - 1].attempt == log[b].attempt - 1
  {
    hide QueueInOrder, SettledFirst, NoneLost, NoneTwice, OneWorker, LogUpToDate, LastAttempt, Destruction, Do;
    InvAlways(run);
    assert b > 0 ==> Follows(After(run).log[b - 1], After(run).log[b]);
  }

  // Once a body has started after the stop signal, the job does not start again; a job whose first
  // start is after the signal starts just once.
  lemma AfterStopOnlyOnce(run: seq<Step>, a: nat, b: nat)
    requires a < |After(run).log| && b < |After(run).log| && a != b
    requires After(run).log[a].afterStop && After(run).log[a].job == After(run).log[b].job
    ensures b < a && After(run).log[a].attempt > 0
  {
    InvAlways(run);
    if a < b {
      LogIsSorted(After(run).log, a, b);
    } else {
      LogIsSorted(After(run).log, b, a);
    }
  }

  // Finished jobs have run, and jobs that were dropped or refused have not.
  lemma WhoHasRun(run: seq<Step>, j: nat)
    ensures j in After(run).finished ==> exists a :: 0 <= a < |After(run).log| && After(run).log[a].job == j
    ensures (exists a :: 0 <= a < |After(run).log| && After(run).log[a].job == j) ==>
              j !in After(run).dropped && j !in After(run).rejected && j !in After(run).queue
  {
    var s := After(run);
    InvAlways(run);
    if j in s.finished {
      var e :| e in s.log && e.job == j;
    }
    if a :| 0 <= a < |s.log| && s.log[a].job == j {
      if j !in s.finished {
        assert j in InFlight(s.master, s.finished);
      }
      assert BeforeWaiting(s, j);
    }
  }

  /* -------- no job is lost or in two places -------- */

  function One(b: bool): nat {
    if b then 1 else 0
  }

  // Every attached job is in exactly one place, and the queue holds no job twice.
  lemma InExactlyOnePlace(run: seq<Step>, j: nat)
    requires j < After(run).attached
    ensures var s := After(run);
            One(s.pending == Some(j)) + One(j in s.queue) + One(j in InFlight(s.master, s.finished))
            + One(j in s.finished) + One(j in s.dropped) + One(j in s.rejected) == 1
    ensures forall a, b :: 0 <= a < b < |After(run).queue| ==> After(run).queue[a] < After(run).queue[b]
  {
    InvAlways(run);
    var s := After(run);
    if j in s.queue {
      assert !BeforeWaiting(s, j);
    }
  }

  // Settled jobs stay settled, and as they are.
  lemma SettledForGood(s: State, step: Step)
    ensures s.finished <= Do(s, step).finished
    ensures s.dropped <= Do(s, step).dropped
    ensures s.rejected <= Do(s, step).rejected
  {
    match step
    case Enqueue => assert s.finished <= DoEnqueue(s).finished;
    case Stop => assert s.dropped <= DoStop(s).dropped;
    case Destroy => assert s.dropped <= DoDestroy(s).dropped;
    case Return(j, success) => assert s.finished <= DoReturn(s, j, success).finished;
    case Poll(j) => assert s.finished <= DoPoll(s, j).finished;
    case _ =>
  }

  /* -------- join -------- */

  // join returns: no job was attached yet, or the future of the last one is ready.
  ghost predicate JoinReturns(s: State) {
    s.attached == 0 || Settled(s, s.attached - 1)
  }

  // When it does, and the last job has finished, then every job has been settled.  If the last job
  // was dropped by stop, then the queue is empty and the only job that may still have to finish is an
  // earlier one that the master had popped before.  Otherwise the last job was refused by a sequence
  // that is being destroyed.
  lemma JoinMeans(run: seq<Step>)
    requires JoinReturns(After(run)) && After(run).attached > 0
    ensures var s := After(run);
            var last := s.attached - 1;
            && (last in s.finished ==> forall j: nat :: j < s.attached ==> Settled(s, j))
            && (last in s.dropped ==>
                  s.queue == [] && s.pending == None
                  && forall j: nat :: j < s.attached && !Settled(s, j) ==>
                       j in InFlight(s.master, s.finished) && j < last)
            && (last in s.rejected ==> s.stopped)
  {
    hide QueueInOrder, SettledFirst, OneWorker, LogInOrder, LogUpToDate, LastAttempt, NoneTwice, Do;
    InvAlways(run);
    var s := After(run);
    if s.attached - 1 in s.finished || s.attached - 1 in s.dropped {
      NothingAfterLast(s);
    }
  }

  lemma NothingAfterLast(s: State)
    requires Inv(s) && s.attached > 0 && (s.attached - 1 in s.finished || s.attached - 1 in s.dropped)
    ensures s.queue == [] && s.pending == None
    ensures forall j :: j in InFlight(s.master, s.finished) ==> j < s.attached - 1
    ensures s.attached - 1 in s.finished ==> InFlight(s.master, s.finished) == {}
  {
    hide NoneLost, LogInOrder, OneWorker, LastAttempt, Destruction;
    QueueIsAttached(s);
    assert BeforeWaiting(s, s.attached - 1);
  }

  lemma QueueIsAttached(s: State)
    requires QueueInOrder(s)
    ensures s.queue == [] || s.queue[0] < s.attached
  {
  }

  // Without a destructor at work, nothing is ever refused, so join leaves at most one job unsettled,
  // and none unless stop dropped the last job.
  lemma JoinBeforeDestruction(run: seq<Step>, j: nat)
    requires JoinReturns(After(run)) && After(run).destroyed == 0
    requires j < After(run).attached && !Settled(After(run), j)
    ensures After(run).attached - 1 in After(run).dropped
    ensures j in InFlight(After(run).master, After(run).finished) && j < After(run).attached - 1
    ensures forall k: nat :: k < After(run).attached && !Settled(After(run), k) ==> k == j
  {
    hide OneWorker, LogInOrder, LogUpToDate, LastAttempt, QueueInOrder, NoneTwice, SettledFirst, NoneLost;
    InvAlways(run);
    JoinMeans(run);
  }

  // Without stop and without a destructor, join waits for all jobs to finish.
  lemma JoinCompletes(run: seq<Step>, j: nat)
    requires JoinReturns(After(run)) && !After(run).stopSignal && After(run).destroyed == 0
    requires j < After(run).attached
    ensures j in After(run).finished
  {
    hide OneWorker, LogInOrder, LogUpToDate, LastAttempt, QueueInOrder, NoneTwice, SettledFirst, NoneLost;
    InvAlways(run);
    JoinMeans(run);
    assert After(run).dropped == {} && After(run).rejected == {};
    assert Settled(After(run), j);
  }

  // With stop it need not: here the first job is still running when stop drops the second.
  lemma JoinCanLeaveOne() returns (run: seq<Step>)
    ensures JoinReturns(After(run)) && After(run).destroyed == 0 && After(run).attached == 2
    ensures After(run).workers == map[0 := InBody(0)] && !Settled(After(run), 0)
    ensures 1 in After(run).dropped
  {
    var s := INITIAL;
    run := [];
    run, s := Extended(run, s, Step.Reserve);
    run, s := Extended(run, s, Step.Enqueue);
    run, s := Extended(run, s, Step.Wake);
    run, s := Extended(run, s, Spawn);
    run, s := Extended(run, s, Call(0));
    run, s := Extended(run, s, Step.Reserve);
    run, s := Extended(run, s, Step.Enqueue);
    run, s := Extended(run, s, Step.Stop);
  }

  lemma Extended(run: seq<Step>, s: State, step: Step) returns (run': seq<Step>, s': State)
    requires After(run) == s
    ensures run' == run + [step] && After(run') == s' == Do(s, step)
  {
    run', s' := run + [step], Do(s, step);
    assert run'[..|run|] == run;
  }

  /* -------- the destructor -------- */

  // When the destructor has joined the master, every job whose attach_job call got through is
  // settled, no thread runs, and whatever else is called, no body ever starts again.
  lemma DestructionIsFinal(run: seq<Step>, more: seq<Step>)
    requires After(run).destroyed == 4
    ensures forall j: nat :: j < After(run).attached && After(run).pending != Some(j) ==> Settled(After(run), j)
    ensures After(run).workers == map[]
    ensures After(run + more).log == After(run).log
  {
    InvAlways(run);
    StaysDestroyed(run, more);
  }

  lemma {:induction false} StaysDestroyed(run: seq<Step>, more: seq<Step>)
    requires After(run).destroyed == 4
    ensures After(run + more).destroyed == 4 && After(run + more).log == After(run).log
    decreases |more|
  {
    if more == [] {
      assert run + more == run;
    } else {
      hide Do, Inv;
      var init := run + more[..|more| - 1];
      assert (run + more)[..|run + more| - 1] == init;
      StaysDestroyed(run, more[..|more| - 1]);
      InvAlways(init);
      DestroyedStep(After(init), more[|more| - 1]);
    }
  }

  lemma DestroyedStep(s: State, step: Step)
    requires Inv(s) && s.destroyed == 4
    ensures Do(s, step).destroyed == 4 && Do(s, step).log == s.log
  {
    assert s.workers.Keys == {};
  }

  /* -------- the class -------- */

  // The fields of the class that threads share, and the critical sections on them.  The ghost state is
  // the step system's; Valid ties the fields to it.
  class Sequence {
    var tasks: seq<nat>
    var lastFuture: Option<nat>
    var stopped: bool
    var stopSignal: bool
    ghost var state: State

    ghost predicate Valid()
      reads this
    {
      && Inv(state)
      && tasks == state.queue && stopped == state.stopped && stopSignal == state.stopSignal
      && lastFuture == if state.attached == 0 then None else Some(state.attached - 1)
    }

    constructor ()
      ensures Valid() && state == INITIAL
    {
      tasks, lastFuture, stopped, stopSignal := [], None, false, false;
      state := INITIAL;
    }

    // attach_job up to the lock: the new task's future replaces the last one.
    method Reserve(job: nat)
      requires Valid() && state.pending == None && job == state.attached
      modifies this
      ensures Valid() && state == Do(old(state), Step.Reserve)
    {
      hide Inv;
      InvStep(state, Step.Reserve);
      lastFuture := Some(job);
      state := Do(state, Step.Reserve);
    }

    // attach_job under the lock.  The result says whether the sequence was fatal to the call.
    method Enqueue(job: nat) returns (fatal: bool)
      requires Valid() && state.pending == Some(job)
      modifies this
      ensures Valid() && state == Do(old(state), Step.Enqueue)
      ensures fatal == old(stopped) && tasks == if fatal then old(tasks) else old(tasks) + [job]
    {
      hide Inv;
      InvStep(state, Step.Enqueue);
      fatal := stopped;
      if !stopped {
        tasks := tasks + [job];
      }
      state := Do(state, Step.Enqueue);
    }

    // stop.
    method Stop()
      requires Valid()
      modifies this
      ensures Valid() && state == Do(old(state), Step.Stop)
      ensures tasks == [] && stopSignal
    {
      hide Inv;
      InvStep(state, Step.Stop);
      tasks := [];
      stopSignal := true;
      state := Do(state, Step.Stop);
    }

    // The master's critical section, entered when the wait is over.
    method Wake() returns (task: Option<nat>)
      requires Valid() && state.master == Waiting && (tasks != [] || state.exitSignal)
      modifies this
      ensures Valid() && state == Do(old(state), Step.Wake)
      ensures if old(tasks) == [] then task == None && state.master == Checking
              else task == Some(old(tasks)[0]) && state.master == Popped(old(tasks)[0])
                   && tasks == old(tasks)[1..]
    {
      hide Inv;
      InvStep(state, Step.Wake);
      if tasks == [] {
        task := None;
      } else {
        task := Some(tasks[0]);
        tasks := tasks[1..];
      }
      state := Do(state, Step.Wake);
    }
  }
}
