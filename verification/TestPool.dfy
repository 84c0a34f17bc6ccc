/** The worker pool of test.py as a state machine: a main thread that queues jobs and
    terminators, collects results and joins; workers that take jobs from one FIFO queue
    and return them on another; and a signal handler that may set `thread_exit` at any
    moment. One constructor of Step is one atomic action of one thread. */
module TestPool {

  datatype Kind = Suite | Example | PyExample

  /** `id` stands for the job's name, command and paths, which no thread changes. */
  datatype Job = Job(id: nat, kind: Kind, isSkip: bool, isBreak: bool, returncode: int)

  /** What one worker thread is doing: blocked on the input queue; holding a job it has not
      compared with `thread_exit` yet; executing; holding a job to put on the output queue. */
  datatype Worker = Waiting | Taken(job: Job) | Running(job: Job) | Returning(job: Job) | Exited

  datatype State = State(
    todo: seq<Job>,
    terminators: nat,
    input: seq<Job>,
    workers: seq<Worker>,
    output: seq<Job>,
    collected: seq<Job>,
    jobs: nat,
    joined: nat,
    threadExit: bool)

  datatype Step =
    | Dispatch
    | Terminate
    | Take(w: nat)
    | Inspect(w: nat)
    | Finish(w: nat)
    | Return(w: nat)
    | Collect
    | Join
    | Interrupt

  const TERMINATOR := Job(0, Suite, false, true, 0)

  /** The job as it was when the main thread created it. */
  function Origin(j: Job): Job {
    j.(isBreak := false, returncode := 0)
  }

  predicate Fresh(j: Job) {
    j == Origin(j)
  }

  /** The job as an uninterrupted worker returns it; `rc` is what running it yields. */
  function Outcome(j: Job, rc: Job -> int): Job {
    if j.isSkip then j else j.(returncode := rc(j))
  }

  function Start(jobs: seq<Job>, processors: nat): State {
    State(jobs, processors, [], seq(processors, _ => Waiting), [], [], |jobs|, 0, false)
  }

  predicate DispatchDone(s: State) {
    s.todo == [] && s.terminators == 0
  }

  predicate Enabled(s: State, a: Step) {
    match a
    case Dispatch => s.todo != []
    case Terminate => s.todo == [] && s.terminators > 0
    case Take(w) => w < |s.workers| && s.workers[w].Waiting? && s.input != []
    case Inspect(w) => w < |s.workers| && s.workers[w].Taken?
    case Finish(w) => w < |s.workers| && s.workers[w].Running?
    case Return(w) => w < |s.workers| && s.workers[w].Returning?
    case Collect => DispatchDone(s) && |s.collected| < s.jobs && s.output != []
    case Join =>
      && DispatchDone(s)
      && |s.collected| == s.jobs
      && s.joined < |s.workers|
      && s.workers[s.joined].Exited?
    case Interrupt => true
  }

  function AfterTake(j: Job): Worker {
    if j.isBreak then Exited else Taken(j)
  }

  function AfterInspect(j: Job, threadExit: bool): Worker {
    if threadExit then Returning(j.(isBreak := true))
    else if j.isSkip then Returning(j)
    else Running(j)
  }

  function Apply(s: State, a: Step, rc: Job -> int): State
    requires Enabled(s, a)
  {
    match a
    case Dispatch => s.(todo := s.todo[1..], input := s.input + [s.todo[0]])
    case Terminate => s.(terminators := s.terminators - 1, input := s.input + [TERMINATOR])
    case Take(w) => s.(input := s.input[1..], workers := s.workers[w := AfterTake(s.input[0])])
    case Inspect(w) => s.(workers := s.workers[w := AfterInspect(s.workers[w].job, s.threadExit)])
    case Finish(w) =>
      var j := s.workers[w].job;
      s.(workers := s.workers[w := Returning(j.(returncode := rc(j)))])
    case Return(w) => s.(workers := s.workers[w := Waiting], output := s.output + [s.workers[w].job])
    case Collect => s.(output := s.output[1..], collected := s.collected + [s.output[0]])
    case Join => s.(joined := s.joined + 1)
    case Interrupt => s.(threadExit := true)
  }

  /** The state in which `run_tests` goes on to its summary: every thread is joined. */
  predicate Final(s: State) {
    DispatchDone(s) && |s.collected| == s.jobs && s.joined == |s.workers|
  }

  /** An interleaving is a sequence of steps, each enabled when it is taken. */
  predicate Legal(s: State, run: seq<Step>, rc: Job -> int)
    decreases |run|
  {
    run == [] || (Enabled(s, run[0]) && Legal(Apply(s, run[0], rc), run[1..], rc))
  }

  function Exec(s: State, run: seq<Step>, rc: Job -> int): State
    requires Legal(s, run, rc)
    decreases |run|
  {
    if run == [] then s else Exec(Apply(s, run[0], rc), run[1..], rc)
  }

  // ---------------------------------------------------------------------------------------
  // Counting jobs by what they were when they were dispatched
  // ---------------------------------------------------------------------------------------

  function Weight(j: Job, p: Job -> bool): nat {
    if p(Origin(j)) then 1 else 0
  }

  function Count(q: seq<Job>, p: Job -> bool): nat {
    if q == [] then 0 else Weight(q[0], p) + Count(q[1..], p)
  }

  lemma {:induction false} CountAppend(q: seq<Job>, j: Job, p: Job -> bool)
    ensures Count(q + [j], p) == Count(q, p) + Weight(j, p)
  {
    if q == [] {
      assert q + [j] == [j] && [j][1..] == [];
    } else {
      assert (q + [j])[1..] == q[1..] + [j];
      CountAppend(q[1..], j, p);
    }
  }

  lemma CountAll(q: seq<Job>, p: Job -> bool)
    requires forall j :: p(j)
    ensures Count(q, p) == |q|
  {
  }

  /** The real jobs of the input queue. */
  function Work(q: seq<Job>): seq<Job> {
    if q == [] then [] else (if q[0].isBreak then [] else [q[0]]) + Work(q[1..])
  }

  lemma {:induction false} WorkAppend(q: seq<Job>, j: Job)
    ensures Work(q + [j]) == Work(q) + (if j.isBreak then [] else [j])
  {
    if q == [] {
      assert q + [j] == [j] && [j][1..] == [];
    } else {
      assert (q + [j])[1..] == q[1..] + [j];
      WorkAppend(q[1..], j);
    }
  }

  lemma NoWork(q: seq<Job>)
    requires forall i :: 0 <= i < |q| ==> q[i].isBreak
    ensures Work(q) == []
  {
  }

  lemma CountWorkHead(q: seq<Job>, p: Job -> bool)
    requires q != []
    ensures Count(Work(q), p) == (if q[0].isBreak then 0 else Weight(q[0], p)) + Count(Work(q[1..]), p)
  {
    if q[0].isBreak {
      assert Work(q) == Work(q[1..]);
    } else {
      assert Work(q)[1..] == Work(q[1..]);
    }
  }

  lemma NothingQueued(q: seq<Job>)
    requires Work(q) == [] && Breaks(q) == 0
    ensures q == []
  {
  }

  function Breaks(q: seq<Job>): nat {
    if q == [] then 0 else (if q[0].isBreak then 1 else 0) + Breaks(q[1..])
  }

  lemma {:induction false} BreaksAppend(q: seq<Job>, j: Job)
    ensures Breaks(q + [j]) == Breaks(q) + (if j.isBreak then 1 else 0)
  {
    if q == [] {
      assert q + [j] == [j] && [j][1..] == [];
    } else {
      assert (q + [j])[1..] == q[1..] + [j];
      BreaksAppend(q[1..], j);
    }
  }

  function Carries(w: Worker): bool {
    w.Taken? || w.Running? || w.Returning?
  }

  function HeldBy(w: Worker, p: Job -> bool): nat {
    if Carries(w) then Weight(w.job, p) else 0
  }

  function Held(ws: seq<Worker>, p: Job -> bool): nat {
    if ws == [] then 0 else HeldBy(ws[0], p) + Held(ws[1..], p)
  }

  lemma {:induction false} HeldUpdate(ws: seq<Worker>, i: nat, x: Worker, p: Job -> bool)
    requires i < |ws|
    ensures Held(ws[i := x], p) == Held(ws, p) - HeldBy(ws[i], p) + HeldBy(x, p)
  {
    if i == 0 {
      assert ws[i := x][1..] == ws[1..];
    } else {
      assert ws[i := x][1..] == ws[1..][i - 1 := x];
      HeldUpdate(ws[1..], i - 1, x, p);
    }
  }

  lemma HeldNone(ws: seq<Worker>, p: Job -> bool)
    requires forall i :: 0 <= i < |ws| ==> !Carries(ws[i])
    ensures Held(ws, p) == 0
  {
  }

  function Live(ws: seq<Worker>): nat {
    if ws == [] then 0 else (if ws[0].Exited? then 0 else 1) + Live(ws[1..])
  }

  lemma {:induction false} LiveUpdate(ws: seq<Worker>, i: nat, x: Worker)
    requires i < |ws| && !ws[i].Exited?
    ensures Live(ws) > 0
    ensures Live(ws[i := x]) == if x.Exited? then Live(ws) - 1 else Live(ws)
  {
    if i == 0 {
      assert ws[i := x][1..] == ws[1..];
    } else {
      assert ws[i := x][1..] == ws[1..][i - 1 := x];
      LiveUpdate(ws[1..], i - 1, x);
    }
  }

  lemma LiveAll(ws: seq<Worker>)
    requires forall i :: 0 <= i < |ws| ==> !ws[i].Exited?
    ensures Live(ws) == |ws|
  {
  }

  lemma LiveNone(ws: seq<Worker>)
    ensures Live(ws) == 0 <==> forall i :: 0 <= i < |ws| ==> ws[i].Exited?
  {
    if ws != [] {
      LiveNone(ws[1..]);
      assert forall i :: 0 <= i < |ws[1..]| ==> ws[1..][i] == ws[i + 1];
      assert forall i :: 1 <= i < |ws| ==> ws[i] == ws[1..][i - 1];
    }
  }

  // ---------------------------------------------------------------------------------------
  // What every reachable state satisfies
  // ---------------------------------------------------------------------------------------

  /** A job on its way back either ran, was skipped, or was turned into a break. */
  predicate Settled(j: Job, rc: Job -> int, threadExit: bool) {
    j == Outcome(Origin(j), rc) || (threadExit && j == Origin(j).(isBreak := true))
  }

  predicate WorkerOk(w: Worker, rc: Job -> int, threadExit: bool) {
    match w
    case Taken(j) => Fresh(j)
    case Running(j) => Fresh(j) && !j.isSkip
    case Returning(j) => Settled(j, rc, threadExit)
    case _ => true
  }

  /** How many jobs the machine holds, in all its places, that were dispatched satisfying `p`. */
  function Everything(s: State, p: Job -> bool): nat {
    Count(s.todo, p) + Count(Work(s.input), p) + Held(s.workers, p) + Count(s.output, p) + Count(s.collected, p)
  }

  predicate Content(s: State, rc: Job -> int) {
    && (forall j :: j in s.todo ==> Fresh(j))
    && (forall j :: j in s.input ==> Fresh(j) || j == TERMINATOR)
    && (forall i :: 0 <= i < |s.workers| ==> WorkerOk(s.workers[i], rc, s.threadExit))
    && (forall j :: j in s.output ==> Settled(j, rc, s.threadExit))
    && (forall j :: j in s.collected ==> Settled(j, rc, s.threadExit))
  }

  /** The input queue is jobs first, terminators last; terminators not yet taken match the
      workers not yet gone; a worker has gone only when no job is left to take. */
  predicate Discipline(s: State) {
    && (forall i, k :: 0 <= i < k < |s.input| && s.input[i].isBreak ==> s.input[k].isBreak)
    && (s.todo != [] ==>
          s.terminators == |s.workers| && forall i :: 0 <= i < |s.input| ==> !s.input[i].isBreak)
    && Live(s.workers) == s.terminators + Breaks(s.input)
    && ((exists i :: 0 <= i < |s.workers| && s.workers[i].Exited?) ==>
          s.todo == [] && forall i :: 0 <= i < |s.input| ==> s.input[i].isBreak)
  }

  predicate MainOrder(s: State) {
    && |s.collected| <= s.jobs
    && (s.collected != [] ==> DispatchDone(s))
    && s.joined <= |s.workers|
    && (s.joined > 0 ==> DispatchDone(s) && |s.collected| == s.jobs)
    && (forall i :: 0 <= i < s.joined ==> s.workers[i].Exited?)
  }

  predicate Inv(s: State, jobs: nat, processors: nat, rc: Job -> int) {
    && s.jobs == jobs
    && |s.workers| == processors
    && Content(s, rc)
    && Discipline(s)
    && MainOrder(s)
  }

  lemma StartInv(jobs: seq<Job>, processors: nat, rc: Job -> int)
    requires forall j :: j in jobs ==> Fresh(j)
    ensures Inv(Start(jobs, processors), |jobs|, processors, rc)
  {
    LiveAll(Start(jobs, processors).workers);
  }

  lemma StepConserves(s: State, a: Step, rc: Job -> int, p: Job -> bool)
    requires Enabled(s, a)
    requires Content(s, rc)
    ensures Everything(Apply(s, a, rc), p) == Everything(s, p)
  {
    var t := Apply(s, a, rc);
    match a
    case Dispatch =>
      assert s.todo[0] in s.todo;
      WorkAppend(s.input, s.todo[0]);
      CountAppend(Work(s.input), s.todo[0], p);
    case Terminate =>
      WorkAppend(s.input, TERMINATOR);
      assert Work(s.input) + [] == Work(s.input);
    case Take(w) =>
      CountWorkHead(s.input, p);
      HeldUpdate(s.workers, w, t.workers[w], p);
    case Inspect(w) =>
      HeldUpdate(s.workers, w, t.workers[w], p);
    case Finish(w) =>
      HeldUpdate(s.workers, w, t.workers[w], p);
    case Return(w) =>
      HeldUpdate(s.workers, w, Waiting, p);
      CountAppend(s.output, s.workers[w].job, p);
    case Collect =>
      CountAppend(s.collected, s.output[0], p);
    case Join =>
    case Interrupt =>
  }

  lemma StepKeepsContent(s: State, a: Step, rc: Job -> int)
    requires Enabled(s, a)
    requires Content(s, rc)
    ensures Content(Apply(s, a, rc), rc)
  {
    var t := Apply(s, a, rc);
    assert forall i :: 0 <= i < |s.workers| ==> WorkerOk(s.workers[i], rc, t.threadExit);
    if a.Take? {
      assert s.input[0] in s.input;
    }
  }

  lemma QueueingKeepsDiscipline(s: State, a: Step, rc: Job -> int)
    requires Enabled(s, a) && (a.Dispatch? || a.Terminate?)
    requires Content(s, rc) && Discipline(s)
    ensures Discipline(Apply(s, a, rc))
  {
    if a.Dispatch? {
      BreaksAppend(s.input, s.todo[0]);
      assert s.todo[0] in s.todo;
    } else {
      BreaksAppend(s.input, TERMINATOR);
    }
  }

  lemma TakingKeepsDiscipline(s: State, w: nat, rc: Job -> int)
    requires Enabled(s, Take(w)) && Discipline(s)
    ensures Discipline(Apply(s, Take(w), rc))
  {
    hide Live;
    LiveUpdate(s.workers, w, AfterTake(s.input[0]));
  }

  lemma WorkingKeepsDiscipline(s: State, a: Step, rc: Job -> int)
    requires Enabled(s, a) && !a.Dispatch? && !a.Terminate? && !a.Take?
    requires Discipline(s)
    ensures Discipline(Apply(s, a, rc))
  {
    hide Live, Breaks;
    var t := Apply(s, a, rc);
    match a
    case Inspect(w) => LiveUpdate(s.workers, w, t.workers[w]);
    case Finish(w) => LiveUpdate(s.workers, w, t.workers[w]);
    case Return(w) => LiveUpdate(s.workers, w, Waiting);
    case _ =>
  }

  lemma StepKeepsDiscipline(s: State, a: Step, rc: Job -> int)
    requires Enabled(s, a)
    requires Content(s, rc)
    requires Discipline(s)
    ensures Discipline(Apply(s, a, rc))
  {
    hide Discipline, Content, Apply;
    match a
    case Dispatch => QueueingKeepsDiscipline(s, a, rc);
    case Terminate => QueueingKeepsDiscipline(s, a, rc);
    case Take(w) => TakingKeepsDiscipline(s, w, rc);
    case _ => WorkingKeepsDiscipline(s, a, rc);
  }

  lemma StepInv(s: State, a: Step, jobs: nat, processors: nat, rc: Job -> int)
    requires Inv(s, jobs, processors, rc)
    requires Enabled(s, a)
    ensures Inv(Apply(s, a, rc), jobs, processors, rc)
  {
    StepKeepsContent(s, a, rc);
    StepKeepsDiscipline(s, a, rc);
  }

  lemma {:induction false} RunInv(s: State, run: seq<Step>, jobs: nat, processors: nat, rc: Job -> int)
    requires Inv(s, jobs, processors, rc)
    requires Legal(s, run, rc)
    ensures Inv(Exec(s, run, rc), jobs, processors, rc)
    decreases |run|
  {
    if run != [] {
      StepInv(s, run[0], jobs, processors, rc);
      RunInv(Apply(s, run[0], rc), run[1..], jobs, processors, rc);
    }
  }
}
