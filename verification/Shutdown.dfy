/** Stopping a polling module (base/module.h): the worker's loop interleaved with a controller that
    calls Abort once. The flag is taken to be atomic and every query to end. */
module Shutdown {

  /** What the worker does next: test the flag, advance `next`, sleep until it, run the query it has
      started, or nothing more. */
  datatype Worker = TestFlag | Advance | Sleep | RunQuery | Finished

  /** The controller has not called Abort, waits in join, or has returned from it. */
  datatype Controller = Idle | Joining | Joined

  datatype State = State(worker: Worker, controller: Controller, aborted: bool, started: nat)

  const INITIAL := State(TestFlag, Idle, false, 0)

  predicate WorkerStep(s: State, s': State) {
    match s.worker
    case TestFlag => s' == s.(worker := if s.aborted then Finished else Advance)
    case Advance => s' == s.(worker := Sleep)
    case Sleep => s' == s.(worker := RunQuery, started := s.started + 1)
    case RunQuery => s' == s.(worker := TestFlag)
    case Finished => false
  }

  predicate ControllerStep(s: State, s': State) {
    match s.controller
    case Idle => s' == s.(controller := Joining, aborted := true)
    case Joining => s.worker == Finished && s' == s.(controller := Joined)
    case Joined => false
  }

  predicate Next(s: State, s': State) {
    WorkerStep(s, s') || ControllerStep(s, s')
  }

  ghost predicate CanStep(s: State) {
    exists s' :: Next(s, s')
  }

  ghost predicate WorkerCanStep(s: State) {
    exists s' :: WorkerStep(s, s')
  }

  /** A run: any interleaving of worker and controller steps. */
  ghost predicate IsRun(run: seq<State>) {
    && run != [] && run[0] == INITIAL
    && forall i :: 0 <= i < |run| - 1 ==> Next(run[i], run[i + 1])
  }

  predicate Inv(s: State) {
    && (s.aborted <==> s.controller != Idle)
    && (s.worker == Finished ==> s.aborted)
    && (s.controller == Joined ==> s.worker == Finished)
  }

  lemma {:induction false} RunInv(run: seq<State>, i: nat)
    requires IsRun(run) && i < |run|
    ensures Inv(run[i])
  {
    if i > 0 {
      RunInv(run, i - 1);
      assert Next(run[i - 1], run[i]);
    }
  }

  /** The queries still to come once the flag is set: one if the worker has passed its last test of
      the flag and not yet started the query behind it. */
  function QueriesLeft(w: Worker): nat {
    if w == Advance || w == Sleep then 1 else 0
  }

  /** The steps still to come once the flag is set. */
  function StepsLeft(s: State): nat {
    (match s.worker
     case Advance => 4
     case Sleep => 3
     case RunQuery => 2
     case TestFlag => 1
     case Finished => 0)
    + if s.controller == Joined then 0 else 1
  }

  /** From any point at which the flag is set, in every interleaving: exactly the queries that were
      already past the flag still start -- at most one -- and all of them have by the time the worker
      finishes; and every further step brings the end one step closer. */
  lemma {:induction false} AfterAbort(run: seq<State>, i: nat, j: nat)
    requires IsRun(run) && i <= j < |run| && run[i].aborted
    ensures run[j].aborted
    ensures run[j].started + QueriesLeft(run[j].worker) == run[i].started + QueriesLeft(run[i].worker)
    ensures run[j].worker == Finished ==> run[j].started == run[i].started + QueriesLeft(run[i].worker)
    ensures StepsLeft(run[j]) + (j - i) == StepsLeft(run[i])
  {
    if i < j {
      AfterAbort(run, i, j - 1);
      RunInv(run, j - 1);
      assert Next(run[j - 1], run[j]);
    }
  }

  /** Bounded shutdown: once the flag is set a run has at most five more steps and starts at most one
      more query, and it cannot stop before the join has returned. */
  lemma ShutdownIsBounded(run: seq<State>, i: nat)
    requires IsRun(run) && i < |run| && run[i].aborted
    ensures |run| - 1 - i <= 5
    ensures run[|run| - 1].started <= run[i].started + 1
    ensures CanStep(run[|run| - 1]) <==> run[|run| - 1].controller != Joined
  {
    AfterAbort(run, i, |run| - 1);
    RunInv(run, |run| - 1);
    var s := run[|run| - 1];
    if s.controller == Joining {
      var s' := match s.worker
                case TestFlag => s.(worker := Finished)
                case Advance => s.(worker := Sleep)
                case Sleep => s.(worker := RunQuery, started := s.started + 1)
                case RunQuery => s.(worker := TestFlag)
                case Finished => s.(controller := Joined);
      assert Next(s, s');
    }
  }

  /** Without an abort the loop never ends: the worker always has a step, and never finishes. */
  lemma NeverStopsUnasked(run: seq<State>)
    requires IsRun(run) && !run[|run| - 1].aborted
    ensures run[|run| - 1].worker != Finished
    ensures WorkerCanStep(run[|run| - 1])
  {
    var s := run[|run| - 1];
    RunInv(run, |run| - 1);
    var s' := match s.worker
              case Advance => s.(worker := Sleep)
              case Sleep => s.(worker := RunQuery, started := s.started + 1)
              case RunQuery => s.(worker := TestFlag)
              case _ => s.(worker := Advance);
    assert WorkerStep(s, s');
  }
}
