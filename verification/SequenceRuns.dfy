/**
 What the results of bodies do in runs of a jobs::Sequence, and that every run can go on until all jobs
 are done and the destructor returns.
 */
module SequenceRuns {
  import opened Options
  import opened SequenceProtocol
  import opened SequenceSafety

  lemma AfterStep(run: seq<Step>, step: Step)
    ensures After(run + [step]) == Do(After(run), step)
  {
    assert (run + [step])[..|run|] == run;
  }

  /* -------- what ends a job -------- */

  // The step by which job j ends: its body returns with success, or it finds the stop signal given
  // after it has returned without.
  ghost predicate EndsJob(s: State, step: Step, j: nat) {
    && j in s.workers
    && ((step == Return(j, true) && s.workers[j].InBody?)
        || (step == Poll(j) && s.workers[j].Polling? && s.stopSignal))
  }

  lemma EndsOrStays(s: State, step: Step, j: nat)
    ensures j in Do(s, step).finished <==> j in s.finished || EndsJob(s, step, j)
  {
    match step
    case Enqueue => assert DoEnqueue(s).finished == s.finished;
    case Destroy => assert DoDestroy(s).finished == s.finished;
    case Wake => assert DoWake(s).finished == s.finished;
    case Call(k) => assert DoCall(s, k).finished == s.finished;
    case _ =>
  }

  // The finished jobs of a run are those that some step of it has ended.
  lemma {:induction false} FinishedIff(run: seq<Step>, j: nat)
    ensures j in After(run).finished <==> exists i :: 0 <= i < |run| && EndsJob(After(run[..i]), run[i], j)
    decreases |run|
  {
    if run == [] {
    } else {
      hide Do, EndsJob, After;
      var init, last := run[..|run| - 1], run[|run| - 1];
      assert run == init + [last];
      FinishedIff(init, j);
      AfterStep(init, last);
      EndsOrStays(After(init), last, j);
      forall i | 0 <= i < |init|
        ensures EndsJob(After(init[..i]), init[i], j) == EndsJob(After(run[..i]), run[i], j)
      {
        assert init[..i] == run[..i];
      }
      if EndsJob(After(init), last, j) {
        assert EndsJob(After(run[..|run| - 1]), run[|run| - 1], j);
      }
      if j in After(init).finished {
        var i :| 0 <= i < |init| && EndsJob(After(init[..i]), init[i], j);
        assert EndsJob(After(run[..i]), run[i], j);
      }
      if i :| 0 <= i < |run| && EndsJob(After(run[..i]), run[i], j) {
        if i < |init| {
          assert EndsJob(After(init[..i]), init[i], j);
        }
      }
    }
  }

  // The only step that starts a body is the call by the job's own thread, which has not ended.
  lemma OnlyCallLogs(s: State, step: Step)
    requires Inv(s)
    ensures Do(s, step).log == s.log ||
            exists j, i :: j !in s.finished && Do(s, step).log == s.log + [Start(j, i, s.stopSignal)]
  {
    match step
    case Enqueue => assert DoEnqueue(s).log == s.log;
    case Destroy => assert DoDestroy(s).log == s.log;
    case Wake => assert DoWake(s).log == s.log;
    case Call(j) =>
      if j in s.workers && s.workers[j].Starting? {
        RunningIsInFlight(s, j);
        assert Do(s, step).log == s.log + [Start(j, s.workers[j].attempt, s.stopSignal)];
      }
    case Return(j, success) => assert DoReturn(s, j, success).log == s.log;
    case Poll(j) => assert DoPoll(s, j).log == s.log;
    case _ =>
  }

  // No entry of the log from position n on is of job j.
  ghost predicate NotFrom(log: seq<Start>, n: nat, j: nat) {
    forall a :: n <= a < |log| ==> log[a].job != j
  }

  // A finished job never starts again, whatever steps follow.
  lemma {:induction false} FinishedStartsNoMore(run: seq<Step>, more: seq<Step>, j: nat)
    requires j in After(run).finished
    ensures j in After(run + more).finished && After(run).log <= After(run + more).log
    ensures NotFrom(After(run + more).log, |After(run).log|, j)
    decreases |more|
  {
    if more == [] {
      assert run + more == run;
    } else {
      hide Do, After, Inv;
      var init, last := more[..|more| - 1], more[|more| - 1];
      assert run + more == run + init + [last];
      FinishedStartsNoMore(run, init, j);
      AfterStep(run + init, last);
      InvAlways(run + init);
      EndsOrStays(After(run + init), last, j);
      OnlyCallLogs(After(run + init), last);
    }
  }

  // So from the step that ends it on, a job does not start.
  lemma EndedStartsNoMore(run: seq<Step>, i: nat, j: nat)
    requires i < |run| && EndsJob(After(run[..i]), run[i], j)
    ensures After(run[..i]).log <= After(run).log && NotFrom(After(run).log, |After(run[..i]).log|, j)
  {
    hide Do, After;
    assert run[..i + 1] == run[..i] + [run[i]];
    AfterStep(run[..i], run[i]);
    EndsOrStays(After(run[..i]), run[i], j);
    EndingLogsNothing(After(run[..i]), run[i], j);
    assert run == run[..i + 1] + run[i + 1..];
    FinishedStartsNoMore(run[..i + 1], run[i + 1..], j);
  }

  lemma EndingLogsNothing(s: State, step: Step, j: nat)
    requires EndsJob(s, step, j)
    ensures Do(s, step).log == s.log
  {
  }

  /* -------- what makes a job try again -------- */

  ghost predicate OfOthers(steps: seq<Step>, j: nat) {
    Call(j) !in steps && Return(j, true) !in steps && Return(j, false) !in steps && Poll(j) !in steps
  }

  // What other actors do changes nothing for a job that has a thread, and starts no body.
  lemma OthersKeepPhase(s: State, step: Step, j: nat)
    requires Inv(s) && j in s.workers && s.workers[j] != Ended && OfOthers([step], j)
    ensures j in Do(s, step).workers && Do(s, step).workers[j] == s.workers[j] && Do(s, step).log == s.log
  {
    RunningIsInFlight(s, j);
    assert s.workers.Keys == {j};
    match step
    case Enqueue => assert DoEnqueue(s).workers == s.workers && DoEnqueue(s).log == s.log;
    case Destroy => assert DoDestroy(s).workers == s.workers && DoDestroy(s).log == s.log;
    case Wake => assert DoWake(s).workers == s.workers && DoWake(s).log == s.log;
    case Call(k) => assert k !in s.workers.Keys || step in [step];
    case Return(k, success) => assert k !in s.workers.Keys || step in [step];
    case Poll(k) => assert k !in s.workers.Keys || step in [step];
    case _ =>
  }

  lemma {:induction false} OthersKeepPhases(run: seq<Step>, more: seq<Step>, j: nat)
    requires j in After(run).workers && After(run).workers[j] != Ended && OfOthers(more, j)
    ensures j in After(run + more).workers && After(run + more).workers[j] == After(run).workers[j]
    ensures After(run + more).log == After(run).log
    decreases |more|
  {
    if more == [] {
      assert run + more == run;
    } else {
      hide Do, After, Inv;
      var init, last := more[..|more| - 1], more[|more| - 1];
      assert run + more == run + init + [last];
      OthersKeepPhases(run, init, j);
      AfterStep(run + init, last);
      InvAlways(run + init);
      OthersKeepPhase(After(run + init), last, j);
    }
  }

  // A body that returns without success is called again with the next attempt, unless the stop signal
  // is given by the time that its thread looks; nothing else starts in between, whatever others do.
  lemma TriesAgain(run: seq<Step>, j: nat, waiting: seq<Step>, starting: seq<Step>)
    requires j in After(run).workers && After(run).workers[j].InBody?
    requires OfOthers(waiting, j) && OfOthers(starting, j)
    requires !After(run + [Return(j, false)] + waiting).stopSignal
    ensures var again := run + [Return(j, false)] + waiting + [Poll(j)] + starting;
            After(again + [Call(j)]).log ==
            After(run).log + [Start(j, After(run).workers[j].attempt + 1, After(again).stopSignal)]
  {
    hide After, Inv;
    var failed := run + [Return(j, false)];
    AfterStep(run, Return(j, false));
    OthersKeepPhases(failed, waiting, j);
    AfterStep(failed + waiting, Poll(j));
    OthersKeepPhases(failed + waiting + [Poll(j)], starting, j);
    AfterStep(failed + waiting + [Poll(j)] + starting, Call(j));
  }

  /* -------- every run can go on -------- */

  // The step that the master or its worker takes next, if every body succeeds.
  ghost function NextStep(s: State): Step
    requires OneWorker(s)
  {
    match s.master
    case Waiting => Step.Wake
    case Popped(_) => Spawn
    case Joining(j) =>
      assert j in s.workers.Keys;
      (match s.workers[j]
       case Starting(_) => Call(j)
       case InBody(_) => Return(j, true)
       case Polling(_) => Poll(j)
       case Ended => Step.Join)
    case Checking => Check
    case Exited => Check
  }

  // How many of these steps it takes at most until the master waits and nothing is queued.
  ghost function StepsLeft(s: State): nat
    requires OneWorker(s)
  {
    8 * |s.queue| +
    match s.master
    case Waiting => 0
    case Popped(_) => 7
    case Joining(j) =>
      assert j in s.workers.Keys;
      (match s.workers[j]
       case Polling(_) => 6
       case Starting(_) => 5
       case InBody(_) => 4
       case Ended => 3)
    case Checking => 1
    case Exited => 0
  }

  // Callers' steps have not happened, and nothing was dropped or refused.
  ghost predicate CallersIdle(s: State, t: State) {
    && t.attached == s.attached && t.pending == s.pending && t.dropped == s.dropped
    && t.rejected == s.rejected && t.stopSignal == s.stopSignal && t.destroyed == s.destroyed
  }

  lemma NextStepGoesOn(s: State)
    requires OneWorker(s) && (s.master == Exited ==> s.queue == []) && StepsLeft(s) > 0
    requires OneWorker(Do(s, NextStep(s)))
    ensures StepsLeft(Do(s, NextStep(s))) < StepsLeft(s) && CallersIdle(s, Do(s, NextStep(s)))
  {
    if s.master.Joining? {
      assert s.master.job in s.workers.Keys;
    }
  }

  lemma InvNext(s: State)
    requires Inv(s)
    ensures OneWorker(s) && (s.master == Exited ==> s.queue == [])
    ensures OneWorker(Do(s, NextStep(s)))
  {
    InvStep(s, NextStep(s));
    hide QueueInOrder, SettledFirst, NoneLost, NoneTwice, OneWorker, LogInOrder, LogUpToDate, LastAttempt, Do;
  }

  // Every run can go on, without any more calls from outside, until every job that got through is
  // settled; the jobs that were not settled before are then finished, not dropped.
  lemma {:induction false} CanDrain(run: seq<Step>) returns (more: seq<Step>)
    ensures var s, t := After(run), After(run + more);
            && (t.master == Waiting || t.master == Exited) && t.queue == [] && t.workers == map[]
            && CallersIdle(s, t)
    ensures forall j: nat :: j < After(run).attached && After(run).pending != Some(j) ==>
              j in After(run + more).finished || j in After(run).dropped || j in After(run).rejected
    decreases (InvAlways(run); InvNext(After(run)); StepsLeft(After(run)))
  {
    hide Do, After, NextStep;
    InvAlways(run);
    InvNext(After(run));
    if StepsLeft(After(run)) == 0 {
      more := [];
      assert run + more == run;
      NothingLeft(After(run));
    } else {
      hide StepsLeft, Inv, OneWorker;
      var step := NextStep(After(run));
      NextStepGoesOn(After(run));
      AfterStep(run, step);
      var rest := CanDrain(run + [step]);
      more := [step] + rest;
      assert run + more == run + [step] + rest;
    }
  }

  lemma NothingLeft(s: State)
    requires Inv(s) && OneWorker(s) && StepsLeft(s) == 0
    ensures (s.master == Waiting || s.master == Exited) && s.queue == [] && s.workers == map[]
    ensures forall j: nat :: j < s.attached && s.pending != Some(j) ==>
              j in s.finished || j in s.dropped || j in s.rejected
  {
    assert s.workers.Keys == {};
  }

  // One more statement of the destructor.
  lemma CanGoOnDestroying(run: seq<Step>) returns (more: seq<Step>)
    requires After(run).destroyed < 4
    ensures After(run + more).destroyed == After(run).destroyed + 1
  {
    hide After, Inv;
    if After(run).destroyed < 3 {
      more := [Step.Destroy];
      AfterStep(run, Step.Destroy);
    } else {
      var drained := CanDrain(run);
      InvAlways(run + drained);
      ExitSignalIsGiven(After(run + drained));
      if After(run + drained).master == Waiting {
        AfterStep(run + drained, Step.Wake);
        AfterStep(run + drained + [Step.Wake], Check);
        AfterStep(run + drained + [Step.Wake] + [Check], Step.Destroy);
        more := drained + [Step.Wake] + [Check] + [Step.Destroy];
        assert run + more == run + drained + [Step.Wake] + [Check] + [Step.Destroy];
      } else {
        AfterStep(run + drained, Step.Destroy);
        more := drained + [Step.Destroy];
        assert run + more == run + drained + [Step.Destroy];
      }
    }
  }

  lemma ExitSignalIsGiven(s: State)
    requires Inv(s) && s.destroyed == 3
    ensures s.exitSignal
  {
  }

  // So nothing that has happened can keep the destructor from coming to its end, if a waiting master gets
  // to look at its condition again.
  lemma {:induction false} CanBeDestroyed(run: seq<Step>) returns (more: seq<Step>)
    ensures After(run + more).destroyed == 4
    decreases 4 - After(run).destroyed
  {
    hide Do;
    InvAlways(run);
    if After(run).destroyed >= 4 {
      more := [];
      assert run + more == run;
      DestroyedAtMost(run);
    } else {
      var next := CanGoOnDestroying(run);
      var rest := CanBeDestroyed(run + next);
      more := next + rest;
      assert run + more == run + next + rest;
    }
  }

  lemma {:induction false} DestroyedAtMost(run: seq<Step>)
    ensures After(run).destroyed <= 4
    decreases |run|
  {
    if run == [] {
    } else {
      var s := After(run[..|run| - 1]);
      DestroyedAtMost(run[..|run| - 1]);
      match run[|run| - 1]
      case Enqueue => assert DoEnqueue(s).destroyed == s.destroyed;
      case Wake => assert DoWake(s).destroyed == s.destroyed;
      case Call(j) => assert DoCall(s, j).destroyed == s.destroyed;
      case Return(j, success) => assert DoReturn(s, j, success).destroyed == s.destroyed;
      case Poll(j) => assert DoPoll(s, j).destroyed == s.destroyed;
      case _ =>
    }
  }
}
