/** What holds of every run of the worker pool, under every interleaving: no deadlock,
    termination, exactly-once delivery, and what an interrupt can and cannot change. */
module TestPoolRuns {
  import opened TestPool

  /** Every state some interleaving leads to from the state in which the workers are spun up. */
  ghost predicate Reachable(s: State, jobs: seq<Job>, processors: nat, rc: Job -> int) {
    exists run :: Legal(Start(jobs, processors), run, rc) && Exec(Start(jobs, processors), run, rc) == s
  }

  lemma {:induction false} RunConserves(s: State, run: seq<Step>, rc: Job -> int, p: Job -> bool,
                                        jobs: nat, processors: nat)
    requires Inv(s, jobs, processors, rc)
    requires Legal(s, run, rc)
    ensures Everything(Exec(s, run, rc), p) == Everything(s, p)
    decreases |run|
  {
    if run != [] {
      StepConserves(s, run[0], rc, p);
      StepInv(s, run[0], jobs, processors, rc);
      RunConserves(Apply(s, run[0], rc), run[1..], rc, p, jobs, processors);
    }
  }

  lemma ReachableInv(s: State, jobs: seq<Job>, processors: nat, rc: Job -> int)
    requires forall j :: j in jobs ==> Fresh(j)
    requires Reachable(s, jobs, processors, rc)
    ensures Inv(s, |jobs|, processors, rc)
    ensures Everything(s, _ => true) == |jobs|
  {
    var run :| Legal(Start(jobs, processors), run, rc) && Exec(Start(jobs, processors), run, rc) == s;
    StartInv(jobs, processors, rc);
    RunInv(Start(jobs, processors), run, |jobs|, processors, rc);
    NothingLost(s, jobs, processors, rc, _ => true);
    CountAll(jobs, _ => true);
  }

  // ---------------------------------------------------------------------------------------
  // Exactly once
  // ---------------------------------------------------------------------------------------

  /** At every moment of every run, with or without an interrupt, each dispatched job is in
      exactly one of: not yet queued, the input queue, a worker's hands, the output queue,
      collected. (Take `p` to be equality with one job.) */
  lemma {:induction false} NothingLost(s: State, jobs: seq<Job>, processors: nat, rc: Job -> int, p: Job -> bool)
    requires forall j :: j in jobs ==> Fresh(j)
    requires Reachable(s, jobs, processors, rc)
    ensures Count(s.todo, p) + Count(Work(s.input), p) + Held(s.workers, p)
            + Count(s.output, p) + Count(s.collected, p) == Count(jobs, p)
  {
    var s0 := Start(jobs, processors);
    var run :| Legal(s0, run, rc) && Exec(s0, run, rc) == s;
    StartInv(jobs, processors, rc);
    HeldNone(s0.workers, p);
    RunConserves(s0, run, rc, p, |jobs|, processors);
  }

  function Origins(q: seq<Job>): (r: seq<Job>)
    ensures |r| == |q|
  {
    seq(|q|, i requires 0 <= i < |q| => Origin(q[i]))
  }

  lemma {:induction false} CountIsMultiplicity(q: seq<Job>, k: Job)
    ensures Count(q, j => j == k) == multiset(Origins(q))[k]
  {
    if q == [] {
      assert Origins(q) == [];
    } else {
      assert Origins(q) == [Origin(q[0])] + Origins(q[1..]);
      CountIsMultiplicity(q[1..], k);
    }
  }

  /** When the main thread gets to its summary nothing is left in flight. */
  lemma FinalIsQuiet(s: State, jobs: seq<Job>, processors: nat, rc: Job -> int)
    requires forall j :: j in jobs ==> Fresh(j)
    requires Reachable(s, jobs, processors, rc) && Final(s)
    ensures s.todo == [] && s.output == [] && Work(s.input) == []
    ensures forall i :: 0 <= i < |s.workers| ==> s.workers[i].Exited?
    ensures s.input == []
    ensures |s.collected| == |jobs|
  {
    ReachableInv(s, jobs, processors, rc);
    CountAll(s.collected, _ => true);
    CountAll(s.output, _ => true);
    CountAll(Work(s.input), _ => true);
    LiveNone(s.workers);
    NothingQueued(s.input);
  }

  /** On every complete run the jobs collected are a permutation of the jobs dispatched. */
  lemma EachCollectedOnce(s: State, jobs: seq<Job>, processors: nat, rc: Job -> int)
    requires forall j :: j in jobs ==> Fresh(j)
    requires Reachable(s, jobs, processors, rc) && Final(s)
    ensures multiset(Origins(s.collected)) == multiset(jobs)
  {
    FinalIsQuiet(s, jobs, processors, rc);
    assert Origins(jobs) == jobs by {
      forall i | 0 <= i < |jobs|
        ensures Origins(jobs)[i] == jobs[i]
      {
        assert jobs[i] in jobs;
      }
    }
    forall k
      ensures multiset(Origins(s.collected))[k] == multiset(jobs)[k]
    {
      NothingLost(s, jobs, processors, rc, j => j == k);
      HeldNone(s.workers, j => j == k);
      CountIsMultiplicity(s.collected, k);
      CountIsMultiplicity(jobs, k);
    }
  }

  // ---------------------------------------------------------------------------------------
  // Terminators
  // ---------------------------------------------------------------------------------------

  /** When a worker receives a terminator no real job is left for anyone to take, and at every
      moment the workers still alive match the terminators not yet received. */
  lemma TerminatorDiscipline(s: State, jobs: seq<Job>, processors: nat, rc: Job -> int)
    requires forall j :: j in jobs ==> Fresh(j)
    requires Reachable(s, jobs, processors, rc)
    ensures s.input != [] && s.input[0].isBreak ==> s.todo == [] && Work(s.input) == []
    ensures Live(s.workers) == s.terminators + Breaks(s.input)
    ensures DispatchDone(s) ==> Live(s.workers) == Breaks(s.input)
  {
    ReachableInv(s, jobs, processors, rc);
    if s.input != [] && s.input[0].isBreak {
      NoWork(s.input);
    }
  }

  // ---------------------------------------------------------------------------------------
  // Progress and termination
  // ---------------------------------------------------------------------------------------

  /** What is still to do, in steps: a job queued, taken, inspected, finished, returned and
      collected; a terminator queued and taken; a thread joined. */
  function WorkLeft(ws: seq<Worker>): nat {
    if ws == [] then 0
    else (match ws[0]
          case Taken(_) => 4
          case Running(_) => 3
          case Returning(_) => 2
          case _ => 0) + WorkLeft(ws[1..])
  }

  lemma {:induction false} WorkLeftUpdate(ws: seq<Worker>, i: nat, x: Worker)
    requires i < |ws|
    ensures WorkLeft(ws[i := x]) == WorkLeft(ws) - WorkLeft([ws[i]]) + WorkLeft([x])
  {
    if i == 0 {
      assert ws[i := x][1..] == ws[1..];
    } else {
      assert ws[i := x][1..] == ws[1..][i - 1 := x];
      WorkLeftUpdate(ws[1..], i - 1, x);
    }
  }

  function Measure(s: State): int {
    6 * |s.todo| + 2 * s.terminators + 5 * |Work(s.input)| + Breaks(s.input) + WorkLeft(s.workers)
    + |s.output| + (|s.workers| - s.joined)
  }

  lemma StepDecreases(s: State, a: Step, rc: Job -> int)
    requires Enabled(s, a) && Content(s, rc)
    ensures if a.Interrupt? then Measure(Apply(s, a, rc)) == Measure(s)
            else Measure(Apply(s, a, rc)) < Measure(s)
  {
    var t := Apply(s, a, rc);
    match a
    case Dispatch =>
      WorkAppend(s.input, s.todo[0]);
      BreaksAppend(s.input, s.todo[0]);
    case Terminate =>
      WorkAppend(s.input, TERMINATOR);
      BreaksAppend(s.input, TERMINATOR);
    case Take(w) => WorkLeftUpdate(s.workers, w, t.workers[w]);
    case Inspect(w) => WorkLeftUpdate(s.workers, w, t.workers[w]);
    case Finish(w) => WorkLeftUpdate(s.workers, w, t.workers[w]);
    case Return(w) => WorkLeftUpdate(s.workers, w, t.workers[w]);
    case Collect =>
    case Join =>
    case Interrupt =>
  }

  /** Steps of the threads themselves; a signal may arrive any number of times. */
  function Progress(run: seq<Step>): nat {
    if run == [] then 0 else (if run[0].Interrupt? then 0 else 1) + Progress(run[1..])
  }

  lemma {:induction false} RunDecreases(s: State, run: seq<Step>, jobs: nat, processors: nat, rc: Job -> int)
    requires Inv(s, jobs, processors, rc)
    requires Legal(s, run, rc)
    ensures Measure(Exec(s, run, rc)) + Progress(run) <= Measure(s)
    decreases |run|
  {
    if run != [] {
      StepDecreases(s, run[0], rc);
      StepInv(s, run[0], jobs, processors, rc);
      RunDecreases(Apply(s, run[0], rc), run[1..], jobs, processors, rc);
    }
  }

  lemma WorkLeftNone(ws: seq<Worker>)
    requires forall i :: 0 <= i < |ws| ==> !Carries(ws[i])
    ensures WorkLeft(ws) == 0
  {
  }

  /** No interleaving runs for ever: six steps a job and three a worker bound every run. */
  lemma RunsAreFinite(run: seq<Step>, jobs: seq<Job>, processors: nat, rc: Job -> int)
    requires forall j :: j in jobs ==> Fresh(j)
    requires Legal(Start(jobs, processors), run, rc)
    ensures Progress(run) <= 6 * |jobs| + 3 * processors
  {
    var s0 := Start(jobs, processors);
    StartInv(jobs, processors, rc);
    RunDecreases(s0, run, |jobs|, processors, rc);
    RunInv(s0, run, |jobs|, processors, rc);
    WorkLeftNone(s0.workers);
  }

  ghost predicate CanMove(s: State) {
    exists a: Step :: !a.Interrupt? && Enabled(s, a)
  }

  /** No deadlock: while the run is not complete some thread can take a step. */
  lemma NoDeadlock(s: State, jobs: seq<Job>, processors: nat, rc: Job -> int)
    requires forall j :: j in jobs ==> Fresh(j)
    requires Reachable(s, jobs, processors, rc)
    requires processors > 0 || jobs == []
    ensures Final(s) || CanMove(s)
  {
    ReachableInv(s, jobs, processors, rc);
    if s.todo != [] {
      assert Enabled(s, Dispatch);
    } else if s.terminators > 0 {
      assert Enabled(s, Terminate);
    } else if w :| 0 <= w < |s.workers| && Carries(s.workers[w]) {
      match s.workers[w] {
        case Taken(_) => assert Enabled(s, Inspect(w));
        case Running(_) => assert Enabled(s, Finish(w));
        case Returning(_) => assert Enabled(s, Return(w));
        case _ => assert false;
      }
    } else if w :| 0 <= w < |s.workers| && s.workers[w].Waiting? {
      LiveNone(s.workers);
      assert s.input != [];
      assert Enabled(s, Take(w));
    } else {
      OnlyMainLeft(s, jobs, processors, rc);
    }
  }

  lemma OnlyMainLeft(s: State, jobs: seq<Job>, processors: nat, rc: Job -> int)
    requires processors > 0 || jobs == []
    requires Inv(s, |jobs|, processors, rc)
    requires Everything(s, _ => true) == |jobs|
    requires DispatchDone(s)
    requires forall w :: 0 <= w < |s.workers| ==> s.workers[w].Exited?
    ensures Final(s) || CanMove(s)
  {
    HeldNone(s.workers, _ => true);
    CountAll(s.output, _ => true);
    CountAll(s.collected, _ => true);
    CountAll(Work(s.input), _ => true);
    if processors > 0 {
      assert s.workers[0].Exited?;
      NoWork(s.input);
    }
    if |s.collected| < s.jobs {
      assert Enabled(s, Collect);
    } else if s.joined < |s.workers| {
      assert Enabled(s, Join);
    }
  }

  lemma {:induction false} ExecAppend(s: State, run: seq<Step>, a: Step, rc: Job -> int)
    requires Legal(s, run, rc)
    requires Enabled(Exec(s, run, rc), a)
    ensures Legal(s, run + [a], rc)
    ensures Exec(s, run + [a], rc) == Apply(Exec(s, run, rc), a, rc)
    decreases |run|
  {
    if run == [] {
      assert run + [a] == [a];
      assert [a][1..] == [];
      assert Legal(Apply(s, a, rc), [], rc);
    } else {
      assert (run + [a])[1..] == run[1..] + [a];
      ExecAppend(Apply(s, run[0], rc), run[1..], a, rc);
    }
  }

  lemma {:induction false} Completes(s: State, jobs: seq<Job>, processors: nat, rc: Job -> int) returns (end: State)
    requires forall j :: j in jobs ==> Fresh(j)
    requires Reachable(s, jobs, processors, rc)
    requires processors > 0 || jobs == []
    ensures Reachable(end, jobs, processors, rc) && Final(end)
    ensures end.threadExit == s.threadExit
    decreases Measure(s) + |s.workers|
  {
    NoDeadlock(s, jobs, processors, rc);
    if Final(s) {
      end := s;
    } else {
      var a: Step :| !a.Interrupt? && Enabled(s, a);
      ReachableInv(s, jobs, processors, rc);
      StepDecreases(s, a, rc);
      StepInv(s, a, |jobs|, processors, rc);
      ReachableStep(s, a, jobs, processors, rc);
      end := Completes(Apply(s, a, rc), jobs, processors, rc);
    }
  }

  lemma ReachableStep(s: State, a: Step, jobs: seq<Job>, processors: nat, rc: Job -> int)
    requires Reachable(s, jobs, processors, rc)
    requires Enabled(s, a)
    ensures Reachable(Apply(s, a, rc), jobs, processors, rc)
  {
    var s0 := Start(jobs, processors);
    var run :| Legal(s0, run, rc) && Exec(s0, run, rc) == s;
    ExecAppend(s0, run, a, rc);
    assert Legal(s0, run + [a], rc) && Exec(s0, run + [a], rc) == Apply(s, a, rc);
  }

  /** The pool can complete exactly when it has a worker or nothing to do. */
  lemma CompletesIff(jobs: seq<Job>, processors: nat, rc: Job -> int)
    requires forall j :: j in jobs ==> Fresh(j)
    ensures (exists s :: Reachable(s, jobs, processors, rc) && Final(s)) <==> processors > 0 || jobs == []
  {
    var s0 := Start(jobs, processors);
    if processors > 0 || jobs == [] {
      assert Legal(s0, [], rc) && Exec(s0, [], rc) == s0;
      var end := Completes(s0, jobs, processors, rc);
    } else {
      forall s | Reachable(s, jobs, processors, rc)
        ensures !Final(s)
      {
        var run :| Legal(s0, run, rc) && Exec(s0, run, rc) == s;
        NoWorkerNoResult(s0, run, rc);
      }
    }
  }

  /** The number of workers asked for, given the processors found and the value of `--jobs`, which
      is 0 when the option is not used. */
  function Processors(found: int, limit: int): int {
    if limit == 0 || found < limit then found else limit
  }

  /** `range` has no elements below zero. */
  function Threads(processors: int): nat {
    if processors < 0 then 0 else processors
  }

  /** A positive limit is never exceeded, nor is the number of processors found, and one of the two
      is used up; without a limit all processors are used, and with a negative one none. */
  lemma WorkersWithinLimit(found: int, limit: int)
    ensures var workers := Threads(Processors(found, limit));
            && (limit > 0 && found > 0 ==>
                  workers <= limit && workers <= found && (workers == limit || workers == found))
            && (limit == 0 && found > 0 ==> workers == found)
            && (limit < 0 || found <= 0 ==> workers == 0)
  {
  }

  /** The pool can complete exactly when a processor was found and the limit is not negative, or
      there is nothing to do. */
  lemma CompletesWithinLimit(jobs: seq<Job>, found: int, limit: int, rc: Job -> int)
    requires forall j :: j in jobs ==> Fresh(j)
    ensures (exists s :: Reachable(s, jobs, Threads(Processors(found, limit)), rc) && Final(s))
            <==> (found > 0 && limit >= 0) || jobs == []
  {
    hide Reachable, Final;
    CompletesIff(jobs, Threads(Processors(found, limit)), rc);
  }

  /** `--jobs -1` leaves the pool without a worker: after dispatching a job the main thread waits
      for ever, no thread being able to take a step. */
  lemma NegativeLimitHangs(rc: Job -> int)
    ensures var jobs := [Job(1, Suite, false, false, 0)];
            && Threads(Processors(8, -1)) == 0
            && (exists s :: Reachable(s, jobs, 0, rc) && !Final(s) && !CanMove(s))
            && !(exists s :: Reachable(s, jobs, 0, rc) && Final(s))
  {
    var jobs := [Job(1, Suite, false, false, 0)];
    CompletesIff(jobs, 0, rc);
    var s0, run := Start(jobs, 0), [Dispatch];
    var s := Apply(s0, Dispatch, rc);
    assert run[1..] == [] && Legal(s, [], rc) && Exec(s, [], rc) == s;
    assert Legal(s0, run, rc) && Exec(s0, run, rc) == s;
    assert Reachable(s, jobs, 0, rc);
  }

  lemma {:induction false} NoWorkerNoResult(s: State, run: seq<Step>, rc: Job -> int)
    requires s.workers == [] && s.output == [] && s.collected == []
    requires Legal(s, run, rc)
    ensures Exec(s, run, rc).collected == [] && Exec(s, run, rc).jobs == s.jobs
    decreases |run|
  {
    if run != [] {
      NoWorkerNoResult(Apply(s, run[0], rc), run[1..], rc);
    }
  }

  // ---------------------------------------------------------------------------------------
  // Interrupts
  // ---------------------------------------------------------------------------------------

  function Executing(ws: seq<Worker>): nat {
    if ws == [] then 0 else (if ws[0].Running? then 1 else 0) + Executing(ws[1..])
  }

  lemma {:induction false} ExecutingUpdate(ws: seq<Worker>, i: nat, x: Worker)
    requires i < |ws|
    ensures Executing(ws[i := x]) == Executing(ws) - Executing([ws[i]]) + Executing([x])
  {
    if i == 0 {
      assert ws[i := x][1..] == ws[1..];
    } else {
      assert ws[i := x][1..] == ws[1..][i - 1 := x];
      ExecutingUpdate(ws[1..], i - 1, x);
    }
  }

  lemma ExecutingBound(ws: seq<Worker>)
    ensures Executing(ws) <= |ws|
  {
  }

  function Finishes(run: seq<Step>): nat {
    if run == [] then 0 else (if run[0].Finish? then 1 else 0) + Finishes(run[1..])
  }

  /** Once `thread_exit` is set no worker begins to execute a job: only those already
      executing finish, so at most one job a worker still yields a status. */
  lemma {:induction false} InterruptBoundsExecution(s: State, run: seq<Step>, rc: Job -> int)
    requires s.threadExit
    requires Legal(s, run, rc)
    ensures Finishes(run) + Executing(Exec(s, run, rc).workers) == Executing(s.workers)
    ensures Finishes(run) <= |s.workers|
    ensures Exec(s, run, rc).threadExit
    decreases |run|
  {
    ExecutingBound(s.workers);
    if run != [] {
      var t := Apply(s, run[0], rc);
      match run[0] {
        case Take(w) => ExecutingUpdate(s.workers, w, t.workers[w]);
        case Inspect(w) => ExecutingUpdate(s.workers, w, t.workers[w]);
        case Finish(w) => ExecutingUpdate(s.workers, w, t.workers[w]);
        case Return(w) => ExecutingUpdate(s.workers, w, t.workers[w]);
        case _ =>
      }
      InterruptBoundsExecution(t, run[1..], rc);
    }
  }

  /** Jobs on their way back that carry the break mark. */
  function Marked(q: seq<Job>, p: Job -> bool): nat {
    if q == [] then 0 else (if q[0].isBreak then Weight(q[0], p) else 0) + Marked(q[1..], p)
  }

  lemma {:induction false} MarkedAppend(q: seq<Job>, j: Job, p: Job -> bool)
    ensures Marked(q + [j], p) == Marked(q, p) + (if j.isBreak then Weight(j, p) else 0)
  {
    if q == [] {
      assert q + [j] == [j] && [j][1..] == [];
    } else {
      assert (q + [j])[1..] == q[1..] + [j];
      MarkedAppend(q[1..], j, p);
    }
  }

  /** In a worker's hands: jobs not yet compared with `thread_exit`, and jobs marked. */
  function InHand(ws: seq<Worker>, p: Job -> bool): nat {
    if ws == [] then 0
    else (match ws[0]
          case Taken(j) => Weight(j, p)
          case Returning(j) => if j.isBreak then Weight(j, p) else 0
          case _ => 0) + InHand(ws[1..], p)
  }

  lemma {:induction false} InHandUpdate(ws: seq<Worker>, i: nat, x: Worker, p: Job -> bool)
    requires i < |ws|
    ensures InHand(ws[i := x], p) == InHand(ws, p) - InHand([ws[i]], p) + InHand([x], p)
  {
    if i == 0 {
      assert ws[i := x][1..] == ws[1..];
    } else {
      assert ws[i := x][1..] == ws[1..][i - 1 := x];
      InHandUpdate(ws[1..], i - 1, x, p);
    }
  }

  lemma InHandOne(w: Worker, p: Job -> bool)
    ensures InHand([w], p) == match w
                              case Taken(j) => Weight(j, p)
                              case Returning(j) => if j.isBreak then Weight(j, p) else 0
                              case _ => 0
  {
    assert [w][1..] == [];
  }

  lemma TodoIsFresh(s: State, rc: Job -> int)
    requires Content(s, rc)
    ensures s.todo != [] ==> !s.todo[0].isBreak
  {
    if s.todo != [] {
      assert s.todo[0] in s.todo;
    }
  }

  lemma RunningIsFresh(s: State, w: nat, rc: Job -> int)
    requires Content(s, rc) && w < |s.workers| && s.workers[w].Running?
    ensures Fresh(s.workers[w].job)
  {
  }

  lemma InHandNone(ws: seq<Worker>, p: Job -> bool)
    requires forall i :: 0 <= i < |ws| ==> ws[i].Waiting? || ws[i].Exited?
    ensures InHand(ws, p) == 0
  {
  }

  /** Jobs no worker has begun to execute or skip, and jobs already given back as breaks. */
  function Unstarted(s: State, p: Job -> bool): nat {
    Count(s.todo, p) + Count(Work(s.input), p) + InHand(s.workers, p) + Marked(s.output, p) + Marked(s.collected, p)
  }

  lemma StepKeepsUnstarted(s: State, a: Step, rc: Job -> int, p: Job -> bool)
    requires s.threadExit && Enabled(s, a) && Content(s, rc)
    ensures Unstarted(Apply(s, a, rc), p) == Unstarted(s, p)
  {
    TodoIsFresh(s, rc);
    hide Content, InHand, Work;
    var t := Apply(s, a, rc);
    match a
    case Dispatch =>
      WorkAppend(s.input, s.todo[0]);
      CountAppend(Work(s.input), s.todo[0], p);
    case Terminate =>
      WorkAppend(s.input, TERMINATOR);
      assert Work(s.input) + [] == Work(s.input);
    case Take(w) =>
      CountWorkHead(s.input, p);
      InHandUpdate(s.workers, w, t.workers[w], p);
      InHandOne(s.workers[w], p);
      InHandOne(t.workers[w], p);
    case Inspect(w) =>
      InHandUpdate(s.workers, w, t.workers[w], p);
      InHandOne(s.workers[w], p);
      InHandOne(t.workers[w], p);
    case Finish(w) =>
      RunningIsFresh(s, w, rc);
      InHandUpdate(s.workers, w, t.workers[w], p);
      InHandOne(s.workers[w], p);
      InHandOne(t.workers[w], p);
    case Return(w) =>
      InHandUpdate(s.workers, w, t.workers[w], p);
      InHandOne(s.workers[w], p);
      InHandOne(Waiting, p);
      MarkedAppend(s.output, s.workers[w].job, p);
    case Collect => MarkedAppend(s.collected, s.output[0], p);
    case Join =>
    case Interrupt =>
  }

  lemma {:induction false} RunKeepsUnstarted(s: State, run: seq<Step>, rc: Job -> int, p: Job -> bool,
                                             jobs: nat, processors: nat)
    requires s.threadExit && Inv(s, jobs, processors, rc)
    requires Legal(s, run, rc)
    ensures Unstarted(Exec(s, run, rc), p) == Unstarted(s, p)
    decreases |run|
  {
    if run != [] {
      StepKeepsUnstarted(s, run[0], rc, p);
      StepInv(s, run[0], jobs, processors, rc);
      RunKeepsUnstarted(Apply(s, run[0], rc), run[1..], rc, p, jobs, processors);
    }
  }

  /** Jobs that no worker has compared with `thread_exit` yet. */
  function Uninspected(s: State, p: Job -> bool): nat {
    Count(s.todo, p) + Count(Work(s.input), p) + TakenBy(s.workers, p)
  }

  function TakenBy(ws: seq<Worker>, p: Job -> bool): nat {
    if ws == [] then 0 else (if ws[0].Taken? then Weight(ws[0].job, p) else 0) + TakenBy(ws[1..], p)
  }

  lemma NothingMarkedYet(q: seq<Job>, p: Job -> bool)
    requires forall j :: j in q ==> !j.isBreak
    ensures Marked(q, p) == 0
  {
  }

  lemma InHandIsTaken(ws: seq<Worker>, p: Job -> bool)
    requires forall i :: 0 <= i < |ws| && ws[i].Returning? ==> !ws[i].job.isBreak
    ensures InHand(ws, p) == TakenBy(ws, p)
  {
    if ws != [] {
      assert forall i :: 0 <= i < |ws[1..]| ==> ws[1..][i] == ws[i + 1];
    }
  }

  /** Before the signal nothing is marked. */
  lemma UnstartedIsUninspected(s: State, jobs: seq<Job>, processors: nat, rc: Job -> int, p: Job -> bool)
    requires Inv(s, |jobs|, processors, rc) && !s.threadExit
    ensures Unstarted(s, p) == Uninspected(s, p)
  {
    hide Discipline, MainOrder, Marked, InHand, Count, Work, TakenBy;
    assert forall j :: j in s.output ==> !j.isBreak;
    assert forall j :: j in s.collected ==> !j.isBreak;
    assert forall i :: 0 <= i < |s.workers| && s.workers[i].Returning? ==> !s.workers[i].job.isBreak;
    NothingMarkedYet(s.output, p);
    NothingMarkedYet(s.collected, p);
    InHandIsTaken(s.workers, p);
  }

  /** In the end everything is collected. */
  lemma UnstartedIsMarked(s: State, jobs: seq<Job>, processors: nat, rc: Job -> int, p: Job -> bool)
    requires forall j :: j in jobs ==> Fresh(j)
    requires Reachable(s, jobs, processors, rc) && Final(s)
    ensures Unstarted(s, p) == Marked(s.collected, p)
  {
    hide Inv, Reachable;
    FinalIsQuiet(s, jobs, processors, rc);
    InHandNone(s.workers, p);
  }

  /** The signal arrives in `s` and the run goes on to its end. The jobs collected as breaks
      are exactly those no worker had inspected by then. */
  lemma BrokenAreTheUninspected(s: State, run: seq<Step>, jobs: seq<Job>, processors: nat,
                                rc: Job -> int, p: Job -> bool)
    requires forall j :: j in jobs ==> Fresh(j)
    requires Reachable(s, jobs, processors, rc) && !s.threadExit
    requires Legal(Apply(s, Interrupt, rc), run, rc)
    requires Final(Exec(Apply(s, Interrupt, rc), run, rc))
    ensures Marked(Exec(Apply(s, Interrupt, rc), run, rc).collected, p) == Uninspected(s, p)
  {
    hide Inv, Reachable, Exec, Legal, Final, Marked, InHand, Count, Work, TakenBy;
    ReachableInv(s, jobs, processors, rc);
    UnstartedIsUninspected(s, jobs, processors, rc, p);
    var t := Apply(s, Interrupt, rc);
    ReachableStep(s, Interrupt, jobs, processors, rc);
    ReachableInv(t, jobs, processors, rc);
    RunKeepsUnstarted(t, run, rc, p, |jobs|, processors);
    ReachableRun(t, run, jobs, processors, rc);
    var end := Exec(t, run, rc);
    UnstartedIsMarked(end, jobs, processors, rc, p);
  }

  /** A job is collected either as a break or as it would have been without a signal. */
  lemma CollectedBrokenOrAsUsual(s: State, jobs: seq<Job>, processors: nat, rc: Job -> int)
    requires forall j :: j in jobs ==> Fresh(j)
    requires Reachable(s, jobs, processors, rc)
    ensures forall j :: j in s.collected && !j.isBreak ==> j == Outcome(Origin(j), rc)
    ensures forall j :: j in s.collected && !j.isBreak ==>
              j == if j.isSkip then Origin(j) else Origin(j).(returncode := rc(Origin(j)))
    ensures forall j :: j in s.collected && j.isBreak ==> s.threadExit && j == Origin(j).(isBreak := true)
  {
    ReachableInv(s, jobs, processors, rc);
  }

  lemma {:induction false} ReachableRun(s: State, run: seq<Step>, jobs: seq<Job>, processors: nat, rc: Job -> int)
    requires Reachable(s, jobs, processors, rc)
    requires Legal(s, run, rc)
    ensures Reachable(Exec(s, run, rc), jobs, processors, rc)
    decreases |run|
  {
    if run != [] {
      ReachableStep(s, run[0], jobs, processors, rc);
      ReachableRun(Apply(s, run[0], rc), run[1..], jobs, processors, rc);
    }
  }

  /** Without an interrupt every complete run, whatever its interleaving, hands the collector
      the same jobs with the same return codes. */
  lemma SameResultsOnEverySchedule(s: State, jobs: seq<Job>, processors: nat, rc: Job -> int)
    requires forall j :: j in jobs ==> Fresh(j)
    requires Reachable(s, jobs, processors, rc) && Final(s) && !s.threadExit
    ensures multiset(s.collected) == multiset(Outcomes(jobs, rc))
  {
    EachCollectedOnce(s, jobs, processors, rc);
    ReachableInv(s, jobs, processors, rc);
    assert s.collected == Outcomes(Origins(s.collected), rc) by {
      forall i | 0 <= i < |s.collected|
        ensures s.collected[i] == Outcomes(Origins(s.collected), rc)[i]
      {
        assert s.collected[i] in s.collected;
      }
    }
    OutcomesPermute(Origins(s.collected), jobs, rc);
  }

  function Outcomes(q: seq<Job>, rc: Job -> int): (r: seq<Job>)
    ensures |r| == |q|
  {
    seq(|q|, i requires 0 <= i < |q| => Outcome(q[i], rc))
  }

  lemma OutcomesAppend(a: seq<Job>, b: seq<Job>, rc: Job -> int)
    ensures Outcomes(a + b, rc) == Outcomes(a, rc) + Outcomes(b, rc)
  {
  }

  lemma OutcomesRemove(b: seq<Job>, i: nat, rc: Job -> int)
    requires i < |b|
    ensures multiset(b) == multiset(b[..i] + b[i + 1..]) + multiset{b[i]}
    ensures multiset(Outcomes(b, rc)) == multiset(Outcomes(b[..i] + b[i + 1..], rc)) + multiset{Outcome(b[i], rc)}
  {
    assert b == b[..i] + [b[i]] + b[i + 1..];
    OutcomesAppend(b[..i] + [b[i]], b[i + 1..], rc);
    OutcomesAppend(b[..i], [b[i]], rc);
    OutcomesAppend(b[..i], b[i + 1..], rc);
    assert Outcomes([b[i]], rc) == [Outcome(b[i], rc)];
  }

  lemma {:induction false} OutcomesPermute(a: seq<Job>, b: seq<Job>, rc: Job -> int)
    requires multiset(a) == multiset(b)
    ensures multiset(Outcomes(a, rc)) == multiset(Outcomes(b, rc))
    decreases |a|
  {
    if a == [] {
      assert |multiset(b)| == 0;
    } else {
      assert a[0] in multiset(b);
      var i :| 0 <= i < |b| && b[i] == a[0];
      OutcomesRemove(a, 0, rc);
      OutcomesRemove(b, i, rc);
      assert multiset(a[..0] + a[1..]) == multiset(a) - multiset{a[0]};
      assert multiset(b[..i] + b[i + 1..]) == multiset(b) - multiset{b[i]};
      OutcomesPermute(a[..0] + a[1..], b[..i] + b[i + 1..], rc);
    }
  }
}
