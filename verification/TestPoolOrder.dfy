/** In which order the worker pool handles its jobs: both queues are first in, first out. */
module TestPoolOrder {
  import opened TestPool
  import opened TestPoolRuns

  // ---------------------------------------------------------------------------------------
  // Jobs leave the input queue in the order they were dispatched
  // ---------------------------------------------------------------------------------------

  /** The jobs not yet taken by a worker, first the queued ones, then those to be queued. */
  function Untaken(s: State): seq<Job> {
    Work(s.input) + s.todo
  }

  /** One step leaves these as they are, or a worker takes the first of them. */
  lemma StepTakesFirst(s: State, a: Step, rc: Job -> int)
    requires Enabled(s, a) && Content(s, rc)
    ensures var before, after := Untaken(s), Untaken(Apply(s, a, rc));
            if a.Take? && !s.input[0].isBreak then before != [] && s.input[0] == before[0] && after == before[1..]
            else after == before
  {
    TodoIsFresh(s, rc);
    match a
    case Dispatch => DispatchUntaken(s.input, s.todo);
    case Terminate =>
      hide Work, Content;
      WorkAppend(s.input, TERMINATOR);
      assert Work(s.input) + [] == Work(s.input);
    case Take(_) =>
      hide Work, Content;
      WorkHead(s.input);
    case _ =>
      hide Work, Content;
  }

  lemma DispatchUntaken(input: seq<Job>, todo: seq<Job>)
    requires todo != [] && !todo[0].isBreak
    ensures Work(input + [todo[0]]) + todo[1..] == Work(input) + todo
  {
    hide Work;
    WorkAppend(input, todo[0]);
    assert [todo[0]] + todo[1..] == todo;
    assert Work(input) + [todo[0]] + todo[1..] == Work(input) + ([todo[0]] + todo[1..]);
  }

  lemma WorkHead(q: seq<Job>)
    requires q != []
    ensures Work(q) == if q[0].isBreak then Work(q[1..]) else [q[0]] + Work(q[1..])
  {
    assert [] + Work(q[1..]) == Work(q[1..]);
  }

  lemma {:induction false} RunTakesInOrder(s: State, run: seq<Step>, jobs: nat, processors: nat, rc: Job -> int)
    requires Inv(s, jobs, processors, rc) && Legal(s, run, rc)
    ensures var left := |Untaken(Exec(s, run, rc))|;
            left <= |Untaken(s)| && Untaken(Exec(s, run, rc)) == Untaken(s)[|Untaken(s)| - left..]
    decreases |run|
  {
    hide Untaken, Apply, Content, Discipline, MainOrder;
    if run != [] {
      StepTakesFirst(s, run[0], rc);
      StepInv(s, run[0], jobs, processors, rc);
      RunTakesInOrder(Apply(s, run[0], rc), run[1..], jobs, processors, rc);
    }
  }

  /** In every reachable state the jobs still to be taken are the last ones of the list, in its
      order; so whatever the number of workers, jobs are taken in the order of dispatch. */
  lemma TakenInOrder(s: State, jobs: seq<Job>, processors: nat, rc: Job -> int)
    requires forall j :: j in jobs ==> Fresh(j)
    requires Reachable(s, jobs, processors, rc)
    ensures |Work(s.input)| + |s.todo| <= |jobs|
    ensures Work(s.input) + s.todo == jobs[|jobs| - |Work(s.input)| - |s.todo|..]
  {
    hide Inv;
    var s0 := Start(jobs, processors);
    var run :| Legal(s0, run, rc) && Exec(s0, run, rc) == s;
    StartInv(jobs, processors, rc);
    RunTakesInOrder(s0, run, |jobs|, processors, rc);
    assert Untaken(s0) == jobs;
  }

  // ---------------------------------------------------------------------------------------
  // One worker
  // ---------------------------------------------------------------------------------------

  function Hand(w: Worker): seq<Job> {
    if Carries(w) then [Origin(w.job)] else []
  }

  /** All jobs, those furthest on their way first. */
  function Line(s: State): seq<Job>
    requires |s.workers| == 1
  {
    Origins(s.collected + s.output) + Hand(s.workers[0]) + Work(s.input) + s.todo
  }

  lemma OriginsAppend(a: seq<Job>, j: Job)
    ensures Origins(a + [j]) == Origins(a) + [Origin(j)]
  {
  }

  /** What is done, what is in hand and what is not yet taken, after one step. */
  lemma StepMovesOne(s: State, a: Step, rc: Job -> int)
    requires Enabled(s, a) && Content(s, rc) && |s.workers| == 1
    ensures var t := Apply(s, a, rc);
            && |t.workers| == 1
            && Origins(t.collected + t.output)
               == Origins(s.collected + s.output) + (if a.Return? then Hand(s.workers[0]) else [])
            && Hand(t.workers[0])
               == (if a.Return? then []
                   else if a.Take? then if s.input[0].isBreak then [] else [s.input[0]]
                   else Hand(s.workers[0]))
            && (a.Take? ==> Hand(s.workers[0]) == [])
  {
    HeadIsFresh(s, rc);
    hide Content, Work, Origin, Origins;
    var t := Apply(s, a, rc);
    var done := Origins(s.collected + s.output);
    assert done + [] == done;
    match a
    case Return(w) =>
      OriginsAppend(s.collected + s.output, s.workers[0].job);
      assert s.collected + s.output + [s.workers[0].job] == t.collected + t.output;
    case Collect => assert t.collected + t.output == s.collected + s.output;
    case Inspect(w) => HandSame(s.workers[0].job, s.threadExit);
    case Finish(w) => OriginSame(s.workers[0].job, rc(s.workers[0].job));
    case _ =>
  }

  lemma LineIs(s: State)
    requires |s.workers| == 1
    ensures Line(s) == Origins(s.collected + s.output) + Hand(s.workers[0]) + Untaken(s)
  {
    hide Work, Origins, Hand;
  }

  lemma Shift(a: seq<Job>, b: seq<Job>, c: seq<Job>)
    ensures a + [] + c == a + c
    ensures c != [] ==> a + [] + c == a + [c[0]] + c[1..]
    ensures (a + b) + [] + c == a + b + c
  {
    if c != [] {
      assert [c[0]] + c[1..] == c;
      assert a + [c[0]] + c[1..] == a + ([c[0]] + c[1..]);
    }
  }

  /** With one worker no step changes the line. */
  lemma StepKeepsLine(s: State, a: Step, rc: Job -> int)
    requires Enabled(s, a) && Content(s, rc) && |s.workers| == 1
    ensures |Apply(s, a, rc).workers| == 1 && Line(Apply(s, a, rc)) == Line(s)
  {
    hide Content, Apply, Line, Untaken, Hand, Origins;
    StepTakesFirst(s, a, rc);
    StepMovesOne(s, a, rc);
    LineIs(s);
    LineIs(Apply(s, a, rc));
    Shift(Origins(s.collected + s.output), Hand(s.workers[0]), Untaken(s));
    Shift(Origins(s.collected + s.output), [], Hand(s.workers[0]));
  }

  lemma HeadIsFresh(s: State, rc: Job -> int)
    requires Content(s, rc)
    ensures s.input != [] && !s.input[0].isBreak ==> Origin(s.input[0]) == s.input[0]
  {
    if s.input != [] {
      assert s.input[0] in s.input;
    }
  }

  lemma HandSame(j: Job, threadExit: bool)
    ensures Hand(AfterInspect(j, threadExit)) == [Origin(j)]
  {
  }

  lemma OriginSame(j: Job, code: int)
    ensures Origin(j.(returncode := code)) == Origin(j)
  {
  }

  lemma {:induction false} RunKeepsLine(s: State, run: seq<Step>, jobs: nat, rc: Job -> int)
    requires Inv(s, jobs, 1, rc) && Legal(s, run, rc)
    ensures |Exec(s, run, rc).workers| == 1 && Line(Exec(s, run, rc)) == Line(s)
    decreases |run|
  {
    hide Line, Apply, Content, Discipline, MainOrder;
    if run != [] {
      StepKeepsLine(s, run[0], rc);
      StepInv(s, run[0], jobs, 1, rc);
      RunKeepsLine(Apply(s, run[0], rc), run[1..], jobs, rc);
    }
  }

  /** With one worker the collected jobs, those on the output queue, the one in hand, and those not
      yet taken are at every moment the jobs in the order of dispatch. */
  lemma OneWorkerInLine(s: State, jobs: seq<Job>, rc: Job -> int)
    requires forall j :: j in jobs ==> Fresh(j)
    requires Reachable(s, jobs, 1, rc)
    ensures |s.workers| == 1
    ensures Origins(s.collected + s.output) + (if Carries(s.workers[0]) then [Origin(s.workers[0].job)] else [])
            + Work(s.input) + s.todo == jobs
  {
    hide Inv;
    var s0 := Start(jobs, 1);
    var run :| Legal(s0, run, rc) && Exec(s0, run, rc) == s;
    StartInv(jobs, 1, rc);
    RunKeepsLine(s0, run, |jobs|, rc);
    assert Line(s0) == jobs;
  }

  /** An undisturbed complete run with one worker collects the results in the order of dispatch. */
  lemma OneWorkerCollectsInOrder(s: State, jobs: seq<Job>, rc: Job -> int)
    requires forall j :: j in jobs ==> Fresh(j)
    requires Reachable(s, jobs, 1, rc) && Final(s) && !s.threadExit
    ensures s.collected == Outcomes(jobs, rc)
  {
    hide Reachable, Final;
    OneWorkerInLine(s, jobs, rc);
    FinalIsQuiet(s, jobs, 1, rc);
    CollectedBrokenOrAsUsual(s, jobs, 1, rc);
    assert s.collected + s.output == s.collected;
    assert Origins(s.collected) == jobs;
    forall i | 0 <= i < |s.collected|
      ensures s.collected[i] == Outcomes(jobs, rc)[i]
    {
      assert s.collected[i] in s.collected;
      assert jobs[i] == Origins(s.collected)[i];
    }
  }
}
