/** How a run of test.py ends: the worker pool and the collector together, with the exception the
    collector raises when a suite has left no results file. */
module PoolOutcome {
  import opened ResultCollector
  import opened TestPool
  import opened TestPoolRuns

  // ---------------------------------------------------------------------------------------
  // What was collected and what was dispatched
  // ---------------------------------------------------------------------------------------

  lemma CollectedWasDispatched(s: State, jobs: seq<Job>, processors: nat, rc: Job -> int, j: Job)
    requires forall j :: j in jobs ==> Fresh(j)
    requires Reachable(s, jobs, processors, rc)
    requires j in s.collected
    ensures Origin(j) in jobs
    ensures !j.isBreak ==> j == Outcome(Origin(j), rc)
  {
    hide Reachable;
    var k := Origin(j);
    CollectedBrokenOrAsUsual(s, jobs, processors, rc);
    NothingLost(s, jobs, processors, rc, o => o == k);
    CountIsMultiplicity(s.collected, k);
    CountIsMultiplicity(jobs, k);
    var i :| 0 <= i < |s.collected| && s.collected[i] == j;
    assert Origins(s.collected)[i] == k;
    assert k in Origins(s.collected);
    assert multiset(Origins(jobs))[k] > 0;
    var n :| 0 <= n < |jobs| && Origins(jobs)[n] == k;
    assert jobs[n] in jobs;
  }

  lemma JobHasResult(s: State, jobs: seq<Job>, processors: nat, rc: Job -> int, j: Job)
    requires forall j :: j in jobs ==> Fresh(j)
    requires Reachable(s, jobs, processors, rc) && Final(s)
    requires forall j :: j in s.collected ==> !j.isBreak
    requires j in jobs
    ensures Outcome(j, rc) in s.collected
  {
    EachCollectedOnce(s, jobs, processors, rc);
    CollectedBrokenOrAsUsual(s, jobs, processors, rc);
    var o := Origins(s.collected);
    assert j in multiset(jobs);
    assert j in o;
    var i :| 0 <= i < |o| && o[i] == j;
    assert s.collected[i] in s.collected;
  }

  /** The suite whose results file is opened and absent, told by its dispatched job. */
  predicate RaisesFor(j: Job, rc: Job -> int, xml: Job -> Xml) {
    OpensAbsentFile(Outcome(j, rc), xml)
  }

  /** That is, a suite that is not skipped, returns 0, 1 or 2, and leaves no file. */
  lemma RaisesMeans(j: Job, rc: Job -> int, xml: Job -> Xml)
    requires Fresh(j)
    ensures RaisesFor(j, rc, xml)
            <==> !j.isSkip && j.kind == Suite && rc(j) in [0, 1, 2] && xml(j.(returncode := rc(j))) == Absent
  {
  }

  predicate Succeeds(j: Job, rc: Job -> int) {
    j.isSkip || rc(j) == 0
  }

  /** On every complete collection, under every interleaving and with any interrupt: the program
      returns 0 exactly when no results file it opens is absent, no job was broken, and every job
      was skipped or returned 0; and it raises exactly when some job that came back unbroken is a
      suite that was not skipped, returned 0, 1 or 2, and has no results file. */
  lemma PoolExitCode(s: State, jobs: seq<Job>, processors: nat, rc: Job -> int, xml: Job -> Xml)
    requires forall j :: j in jobs ==> Fresh(j)
    requires Reachable(s, jobs, processors, rc) && Final(s)
    ensures EndingOf(s.collected, |jobs|, xml) == Returned(0)
            <==> && (forall j :: j in s.collected ==> !OpensAbsentFile(j, xml) && !j.isBreak)
                 && (forall j :: j in jobs ==> Succeeds(j, rc))
    ensures EndingOf(s.collected, |jobs|, xml) == Raised
            <==> exists j :: j in jobs && Outcome(j, rc) in s.collected && RaisesFor(j, rc, xml)
  {
    hide Reachable, Final;
    ComparisonIff(s, jobs, processors, rc);
    if j :| j in s.collected && OpensAbsentFile(j, xml) {
      CollectedWasDispatched(s, jobs, processors, rc, j);
      assert Origin(j) in jobs && Outcome(Origin(j), rc) == j;
    }
  }

  /** The comparison of the counters with the number of jobs. */
  lemma ComparisonIff(s: State, jobs: seq<Job>, processors: nat, rc: Job -> int)
    requires forall j :: j in jobs ==> Fresh(j)
    requires Reachable(s, jobs, processors, rc) && Final(s)
    ensures ExitOf(Tally(s.collected, Passed), Tally(s.collected, Skipped), |jobs|) == 0
            <==> (forall j :: j in s.collected ==> !j.isBreak) && (forall j :: j in jobs ==> Succeeds(j, rc))
  {
    hide Reachable, Final, Tally;
    FinalIsQuiet(s, jobs, processors, rc);
    ExitZeroIff(s.collected);
    if forall j :: j in s.collected ==> !j.isBreak {
      forall j | j in jobs
        ensures Outcome(j, rc) in s.collected
      {
        JobHasResult(s, jobs, processors, rc, j);
      }
      forall j | j in s.collected
        ensures Origin(j) in jobs && j == Outcome(Origin(j), rc)
      {
        CollectedWasDispatched(s, jobs, processors, rc, j);
      }
    }
  }

  // ---------------------------------------------------------------------------------------
  // Runs in which the main thread may raise
  // ---------------------------------------------------------------------------------------

  /** The main thread has taken a job off the output queue whose results file it could not open. */
  predicate MainRaised(s: State, xml: Job -> Xml) {
    exists j :: j in s.collected && OpensAbsentFile(j, xml)
  }

  predicate ByMain(a: Step) {
    a.Dispatch? || a.Terminate? || a.Collect? || a.Join?
  }

  /** After raising the main thread does nothing more; the workers go on. */
  predicate Allowed(s: State, a: Step, xml: Job -> Xml) {
    Enabled(s, a) && !(ByMain(a) && MainRaised(s, xml))
  }

  predicate AllowedRun(s: State, run: seq<Step>, rc: Job -> int, xml: Job -> Xml): (r: bool)
    ensures r ==> Legal(s, run, rc)
    decreases |run|
  {
    run == [] || (Allowed(s, run[0], xml) && AllowedRun(Apply(s, run[0], rc), run[1..], rc, xml))
  }

  ghost predicate Occurs(s: State, jobs: seq<Job>, processors: nat, rc: Job -> int, xml: Job -> Xml) {
    exists run :: AllowedRun(Start(jobs, processors), run, rc, xml) && Exec(Start(jobs, processors), run, rc) == s
  }

  /** The process is over: the main thread has raised and no worker is left, or it has joined them. */
  predicate Ended(s: State, xml: Job -> Xml) {
    (MainRaised(s, xml) && forall i :: 0 <= i < |s.workers| ==> s.workers[i].Exited?) || Final(s)
  }

  lemma OccursIsReachable(s: State, jobs: seq<Job>, processors: nat, rc: Job -> int, xml: Job -> Xml)
    requires Occurs(s, jobs, processors, rc, xml)
    ensures Reachable(s, jobs, processors, rc)
  {
    var run :| AllowedRun(Start(jobs, processors), run, rc, xml) && Exec(Start(jobs, processors), run, rc) == s;
    assert Legal(Start(jobs, processors), run, rc);
  }

  lemma {:induction false} AllowedAppend(s: State, run: seq<Step>, a: Step, rc: Job -> int, xml: Job -> Xml)
    requires AllowedRun(s, run, rc, xml) && Allowed(Exec(s, run, rc), a, xml)
    ensures AllowedRun(s, run + [a], rc, xml)
    decreases |run|
  {
    hide Allowed, Apply;
    if run == [] {
      assert run + [a] == [a] && [a][1..] == [];
      AllowedEnabled(s, a, xml);
      assert AllowedRun(Apply(s, a, rc), [], rc, xml);
    } else {
      assert (run + [a])[1..] == run[1..] + [a];
      AllowedEnabled(s, run[0], xml);
      AllowedAppend(Apply(s, run[0], rc), run[1..], a, rc, xml);
    }
  }

  lemma AllowedEnabled(s: State, a: Step, xml: Job -> Xml)
    requires Allowed(s, a, xml)
    ensures Enabled(s, a)
  {
  }

  lemma OccursNext(s: State, a: Step, jobs: seq<Job>, processors: nat, rc: Job -> int, xml: Job -> Xml)
    requires Occurs(s, jobs, processors, rc, xml) && Allowed(s, a, xml)
    ensures Occurs(Apply(s, a, rc), jobs, processors, rc, xml)
  {
    hide Allowed, Apply;
    AllowedEnabled(s, a, xml);
    var s0 := Start(jobs, processors);
    var run :| AllowedRun(s0, run, rc, xml) && Exec(s0, run, rc) == s;
    AllowedAppend(s0, run, a, rc, xml);
    ExecAppend(s0, run, a, rc);
    assert AllowedRun(s0, run + [a], rc, xml) && Exec(s0, run + [a], rc) == Apply(s, a, rc);
  }

  /** No job but the last is one whose file could not be opened. */
  predicate StopsAtLast(q: seq<Job>, xml: Job -> Xml) {
    forall i :: 0 <= i < |q| - 1 ==> !OpensAbsentFile(q[i], xml)
  }

  /** The loop stops at the first job whose file is absent: none was collected after it. */
  lemma StopsAtTheFile(s: State, jobs: seq<Job>, processors: nat, rc: Job -> int, xml: Job -> Xml)
    requires Occurs(s, jobs, processors, rc, xml)
    ensures StopsAtLast(s.collected, xml)
  {
    var run :| AllowedRun(Start(jobs, processors), run, rc, xml) && Exec(Start(jobs, processors), run, rc) == s;
    RunStopsAtTheFile(Start(jobs, processors), run, rc, xml);
  }

  lemma {:induction false} RunStopsAtTheFile(s: State, run: seq<Step>, rc: Job -> int, xml: Job -> Xml)
    requires AllowedRun(s, run, rc, xml) && StopsAtLast(s.collected, xml)
    ensures StopsAtLast(Exec(s, run, rc).collected, xml)
    decreases |run|
  {
    hide StopsAtLast, Allowed, Apply;
    if run != [] {
      AllowedEnabled(s, run[0], xml);
      StepStopsAtTheFile(s, run[0], rc, xml);
      RunStopsAtTheFile(Apply(s, run[0], rc), run[1..], rc, xml);
    }
  }

  lemma StepStopsAtTheFile(s: State, a: Step, rc: Job -> int, xml: Job -> Xml)
    requires Allowed(s, a, xml) && StopsAtLast(s.collected, xml)
    ensures StopsAtLast(Apply(s, a, rc).collected, xml)
  {
    hide OpensAbsentFile;
    if a.Collect? {
      var q := Apply(s, a, rc).collected;
      forall i | 0 <= i < |q| - 1
        ensures !OpensAbsentFile(q[i], xml)
      {
        assert q[i] == s.collected[i] && s.collected[i] in s.collected;
      }
    }
  }

  /** No deadlock, the exception included: while the process is not over some thread can move. */
  lemma ProcessNeverStuck(s: State, jobs: seq<Job>, processors: nat, rc: Job -> int, xml: Job -> Xml)
    returns (a: Step)
    requires forall j :: j in jobs ==> Fresh(j)
    requires Occurs(s, jobs, processors, rc, xml)
    requires processors > 0 || jobs == []
    ensures Ended(s, xml) || (!a.Interrupt? && Allowed(s, a, xml))
  {
    hide Occurs, Reachable, OpensAbsentFile;
    OccursIsReachable(s, jobs, processors, rc, xml);
    a := Interrupt;
    if !MainRaised(s, xml) {
      NoDeadlock(s, jobs, processors, rc);
      if !Final(s) {
        a :| !a.Interrupt? && Enabled(s, a);
      }
    } else {
      ReachableInv(s, jobs, processors, rc);
      a := WorkersFinish(s, |jobs|, processors, rc);
    }
  }

  lemma WorkersFinish(s: State, jobs: nat, processors: nat, rc: Job -> int) returns (a: Step)
    requires Inv(s, jobs, processors, rc) && s.collected != []
    ensures (forall i :: 0 <= i < |s.workers| ==> s.workers[i].Exited?)
            || (!a.Interrupt? && !ByMain(a) && Enabled(s, a))
  {
    a := Interrupt;
    if w :| 0 <= w < |s.workers| && Carries(s.workers[w]) {
      var worker := s.workers[w];
      a := if worker.Taken? then Inspect(w) else if worker.Running? then Finish(w) else Return(w);
    } else if w :| 0 <= w < |s.workers| && s.workers[w].Waiting? {
      LiveNone(s.workers);
      assert s.input != [];
      a := Take(w);
    }
  }

  /** The process is over exactly when no thread can move any more. */
  lemma EndedIff(s: State, jobs: seq<Job>, processors: nat, rc: Job -> int, xml: Job -> Xml)
    requires forall j :: j in jobs ==> Fresh(j)
    requires Occurs(s, jobs, processors, rc, xml)
    requires processors > 0 || jobs == []
    ensures Ended(s, xml) <==> forall a: Step :: !a.Interrupt? ==> !Allowed(s, a, xml)
  {
    hide Occurs, Reachable, OpensAbsentFile;
    var a := ProcessNeverStuck(s, jobs, processors, rc, xml);
    OccursIsReachable(s, jobs, processors, rc, xml);
    if Final(s) {
      FinalIsQuiet(s, jobs, processors, rc);
    }
  }

  /** Every run can be continued to an end. */
  lemma {:induction false} ProcessEnds(s: State, jobs: seq<Job>, processors: nat, rc: Job -> int, xml: Job -> Xml)
    returns (end: State)
    requires forall j :: j in jobs ==> Fresh(j)
    requires Occurs(s, jobs, processors, rc, xml)
    requires processors > 0 || jobs == []
    ensures Occurs(end, jobs, processors, rc, xml) && Ended(end, xml) && end.threadExit == s.threadExit
    decreases Measure(s) + |s.workers|
  {
    hide Occurs, Reachable, MainRaised;
    var a := ProcessNeverStuck(s, jobs, processors, rc, xml);
    if Ended(s, xml) {
      end := s;
    } else {
      OccursIsReachable(s, jobs, processors, rc, xml);
      ReachableInv(s, jobs, processors, rc);
      StepDecreases(s, a, rc);
      StepInv(s, a, |jobs|, processors, rc);
      OccursNext(s, a, jobs, processors, rc, xml);
      end := ProcessEnds(Apply(s, a, rc), jobs, processors, rc, xml);
    }
  }

  /** The ending, told from the jobs alone. */
  function Expected(jobs: seq<Job>, rc: Job -> int, xml: Job -> Xml): Ending {
    if exists j :: j in jobs && RaisesFor(j, rc, xml) then Raised
    else Returned(if forall j :: j in jobs ==> Succeeds(j, rc) then 0 else 1)
  }

  /** Without an interrupt the program ends the same way on every schedule. */
  lemma SameEndingOnEverySchedule(s: State, jobs: seq<Job>, processors: nat, rc: Job -> int, xml: Job -> Xml)
    requires forall j :: j in jobs ==> Fresh(j)
    requires Occurs(s, jobs, processors, rc, xml) && Ended(s, xml) && !s.threadExit
    ensures EndingOf(s.collected, |jobs|, xml) == Expected(jobs, rc, xml)
  {
    hide Occurs, Reachable, Final, Tally, OpensAbsentFile;
    OccursIsReachable(s, jobs, processors, rc, xml);
    CollectedBrokenOrAsUsual(s, jobs, processors, rc);
    if j :| j in s.collected && OpensAbsentFile(j, xml) {
      CollectedWasDispatched(s, jobs, processors, rc, j);
      assert RaisesFor(Origin(j), rc, xml);
    } else {
      ComparisonIff(s, jobs, processors, rc);
      forall j | j in jobs
        ensures !RaisesFor(j, rc, xml)
      {
        JobHasResult(s, jobs, processors, rc, j);
      }
    }
  }

  /** With an interrupt: whatever the schedule, the program raises exactly when a job it collected
      is a suite without its file, and otherwise returns 0 exactly when nothing was broken and every
      job succeeded. */
  lemma EndingWithInterrupts(s: State, jobs: seq<Job>, processors: nat, rc: Job -> int, xml: Job -> Xml)
    requires forall j :: j in jobs ==> Fresh(j)
    requires Occurs(s, jobs, processors, rc, xml) && Ended(s, xml)
    ensures EndingOf(s.collected, |jobs|, xml) == Raised
            <==> exists j :: j in jobs && Outcome(j, rc) in s.collected && RaisesFor(j, rc, xml)
    ensures EndingOf(s.collected, |jobs|, xml) == Returned(0)
            <==> && (forall j :: j in s.collected ==> !OpensAbsentFile(j, xml) && !j.isBreak)
                 && (forall j :: j in jobs ==> Succeeds(j, rc))
  {
    hide Occurs, Reachable, Final, Tally;
    OccursIsReachable(s, jobs, processors, rc, xml);
    if j :| j in s.collected && OpensAbsentFile(j, xml) {
      CollectedWasDispatched(s, jobs, processors, rc, j);
      assert Origin(j) in jobs && Outcome(Origin(j), rc) == j;
    } else {
      ComparisonIff(s, jobs, processors, rc);
    }
  }

  const ONE_SUITE := [Job(1, Suite, false, false, 0)]

  /** One suite that returns 0 and leaves no results file: the counters agree with the number of
      jobs, and yet every undisturbed run ends in the exception. There are such runs. */
  lemma OneSuiteRaises()
    ensures var rc: Job -> int, xml: Job -> Xml := _ => 0, _ => Absent;
            && (exists s :: Occurs(s, ONE_SUITE, 1, rc, xml) && Ended(s, xml) && !s.threadExit)
            && (forall s :: Occurs(s, ONE_SUITE, 1, rc, xml) && Ended(s, xml) && !s.threadExit ==>
                  EndingOf(s.collected, 1, xml) == Raised)
            && (exists s :: Reachable(s, ONE_SUITE, 1, rc) && Final(s)
                            && ExitOf(Tally(s.collected, Passed), Tally(s.collected, Skipped), 1) == 0)
  {
    hide Occurs, Reachable, Final, Tally, Ended, EndingOf;
    var rc: Job -> int, xml: Job -> Xml := _ => 0, _ => Absent;
    StartOccurs(ONE_SUITE, 1, rc, xml);
    var end := ProcessEnds(Start(ONE_SUITE, 1), ONE_SUITE, 1, rc, xml);
    assert RaisesFor(ONE_SUITE[0], rc, xml) && ONE_SUITE[0] in ONE_SUITE;
    forall s | Occurs(s, ONE_SUITE, 1, rc, xml) && Ended(s, xml) && !s.threadExit
      ensures EndingOf(s.collected, 1, xml) == Raised
    {
      SameEndingOnEverySchedule(s, ONE_SUITE, 1, rc, xml);
    }
    OccursIsReachable(Start(ONE_SUITE, 1), ONE_SUITE, 1, rc, xml);
    var all := Completes(Start(ONE_SUITE, 1), ONE_SUITE, 1, rc);
    ComparisonIff(all, ONE_SUITE, 1, rc);
    CollectedBrokenOrAsUsual(all, ONE_SUITE, 1, rc);
  }

  lemma StartOccurs(jobs: seq<Job>, processors: nat, rc: Job -> int, xml: Job -> Xml)
    ensures Occurs(Start(jobs, processors), jobs, processors, rc, xml)
  {
    var s0 := Start(jobs, processors);
    assert AllowedRun(s0, [], rc, xml) && Exec(s0, [], rc) == s0;
  }
}
