/** The loop of `run_tests` that takes the returned jobs off the output queue, counts and
    classifies them, and keeps the list of failed jobs; and the exit code built from it. */
module ResultCollector {
  import opened TestPool

  /** The results file a test suite should have left behind: absent, or there and with or
      without a result that can be read as PASS or SKIP. */
  datatype Xml = Absent | Present(passOrSkip: bool)

  datatype Status = Broken | Skipped | Passed | Failed | Valgrind | Crashed

  function StatusOf(j: Job): Status {
    if j.isBreak then Broken
    else if j.isSkip then Skipped
    else match j.returncode
         case 0 => Passed
         case 1 => Failed
         case 2 => Valgrind
         case _ => Crashed
  }

  function Tally(q: seq<Job>, st: Status): nat {
    if q == [] then 0 else Tally(q[..|q| - 1], st) + (if StatusOf(q[|q| - 1]) == st then 1 else 0)
  }

  /** The collector opens the results file outside any handler. */
  predicate OpensAbsentFile(j: Job, xml: Job -> Xml) {
    && !j.isBreak && !j.isSkip && j.kind == Suite
    && 0 <= j.returncode <= 2
    && xml(j).Absent?
  }

  /** How often a job stays in the list of failed jobs. */
  function Entries(j: Job, xml: Job -> Xml): nat {
    if j.isBreak || j.isSkip then 0
    else (if j.returncode == 0 then 0 else 1)
         + (if j.kind == Suite && !(0 <= j.returncode <= 2 && xml(j) == Present(true)) then 1 else 0)
  }

  function FailedList(q: seq<Job>, xml: Job -> Xml): seq<Job> {
    if q == [] then []
    else FailedList(q[..|q| - 1], xml) + seq(Entries(q[|q| - 1], xml), _ => q[|q| - 1])
  }

  lemma AbsentMeans(j: Job, xml: Job -> Xml)
    ensures OpensAbsentFile(j, xml)
            <==> Ran(j) && j.kind == Suite && j.returncode in [0, 1, 2] && xml(j) == Absent
  {
  }

  lemma NothingTallied(xml: Job -> Xml)
    ensures (forall st :: Tally([], st) == 0) && FailedList([], xml) == []
  {
  }

  lemma TallyStep(q: seq<Job>, j: Job)
    ensures forall st :: Tally(q + [j], st) == Tally(q, st) + if StatusOf(j) == st then 1 else 0
  {
    assert (q + [j])[..|q|] == q;
  }

  lemma FailedListStep(q: seq<Job>, j: Job, xml: Job -> Xml)
    ensures FailedList(q + [j], xml)
            == match Entries(j, xml)
               case 0 => FailedList(q, xml)
               case 1 => FailedList(q, xml) + [j]
               case _ => FailedList(q, xml) + [j] + [j]
  {
    assert (q + [j])[..|q|] == q;
  }

  /** Came back neither as a break nor as skipped. */
  predicate Ran(j: Job) {
    !j.isBreak && !j.isSkip
  }

  lemma {:induction false} TallyIs(q: seq<Job>, st: Status, p: Job -> bool)
    requires forall j :: j in q ==> (StatusOf(j) == st <==> p(j))
    ensures Tally(q, st) == |set i: nat | i < |q| && p(q[i])|
  {
    if q != [] {
      var n := |q| - 1;
      TallyIs(q[..n], st, p);
      var a, b := set i: nat | i < n && p(q[..n][i]), set i: nat | i < |q| && p(q[i]);
      assert q[n] in q;
      assert b == if p(q[n]) then a + {n} else a;
    }
  }

  // The counters in terms of flags and return codes.

  lemma SkippedMeans(q: seq<Job>)
    ensures Tally(q, Skipped) == |set i: nat | i < |q| && q[i].isSkip && !q[i].isBreak|
  {
    TallyAsSet(q, Skipped, (j: Job) => j.isSkip && !j.isBreak, set i: nat | i < |q| && q[i].isSkip && !q[i].isBreak);
  }

  lemma PassedMeans(q: seq<Job>)
    ensures Tally(q, Passed) == |set i: nat | i < |q| && Ran(q[i]) && q[i].returncode == 0|
  {
    TallyAsSet(q, Passed, (j: Job) => Ran(j) && j.returncode == 0,
               set i: nat | i < |q| && Ran(q[i]) && q[i].returncode == 0);
  }

  lemma FailedMeans(q: seq<Job>)
    ensures Tally(q, Failed) == |set i: nat | i < |q| && Ran(q[i]) && q[i].returncode == 1|
  {
    TallyAsSet(q, Failed, (j: Job) => Ran(j) && j.returncode == 1,
               set i: nat | i < |q| && Ran(q[i]) && q[i].returncode == 1);
  }

  lemma ValgrindMeans(q: seq<Job>)
    ensures Tally(q, Valgrind) == |set i: nat | i < |q| && Ran(q[i]) && q[i].returncode == 2|
  {
    TallyAsSet(q, Valgrind, (j: Job) => Ran(j) && j.returncode == 2,
               set i: nat | i < |q| && Ran(q[i]) && q[i].returncode == 2);
  }

  lemma CrashedMeans(q: seq<Job>)
    ensures Tally(q, Crashed) == |set i: nat | i < |q| && Ran(q[i]) && (q[i].returncode < 0 || q[i].returncode > 2)|
  {
    TallyAsSet(q, Crashed, (j: Job) => Ran(j) && (j.returncode < 0 || j.returncode > 2),
               set i: nat | i < |q| && Ran(q[i]) && (q[i].returncode < 0 || q[i].returncode > 2));
  }

  lemma BrokenMeans(q: seq<Job>)
    ensures Tally(q, Broken) == |set i: nat | i < |q| && q[i].isBreak|
  {
    TallyAsSet(q, Broken, (j: Job) => j.isBreak, set i: nat | i < |q| && q[i].isBreak);
  }

  lemma TallyAsSet(q: seq<Job>, st: Status, p: Job -> bool, places: set<nat>)
    requires forall j :: j in q ==> (StatusOf(j) == st <==> p(j))
    requires forall i: nat :: i in places <==> i < |q| && p(q[i])
    ensures Tally(q, st) == |places|
  {
    TallyIs(q, st, p);
    assert places == set i: nat | i < |q| && p(q[i]);
  }

  class Collector {
    var passed: nat
    var skipped: nat
    var failed: nat
    var crashed: nat
    var valgrind: nat
    var failedJobs: seq<Job>

    constructor ()
      ensures passed == skipped == failed == crashed == valgrind == 0
      ensures failedJobs == []
    {
      passed, skipped, failed, crashed, valgrind := 0, 0, 0, 0, 0;
      failedJobs := [];
    }

    ghost predicate Holds(q: seq<Job>, xml: Job -> Xml)
      reads this
    {
      && passed == Tally(q, Passed)
      && skipped == Tally(q, Skipped)
      && failed == Tally(q, Failed)
      && crashed == Tally(q, Crashed)
      && valgrind == Tally(q, Valgrind)
      && failedJobs == FailedList(q, xml)
    }

    /** One job off the queue; false when reading the results file raises. */
    method Process(job: Job, xml: Job -> Xml, ghost before: seq<Job>) returns (ok: bool)
      requires Holds(before, xml)
      modifies this
      ensures ok <==> !OpensAbsentFile(job, xml)
      ensures ok ==> Holds(before + [job], xml)
      ensures ok && (job.isBreak || job.isSkip) ==>
                && (passed, failed, crashed, valgrind) == old((passed, failed, crashed, valgrind))
                && skipped == old(skipped) + (if job.isBreak then 0 else 1)
                && failedJobs == old(failedJobs)
      ensures ok && !job.isBreak && !job.isSkip ==>
                && skipped == old(skipped)
                && passed == old(passed) + (if job.returncode == 0 then 1 else 0)
                && failed == old(failed) + (if job.returncode == 1 then 1 else 0)
                && valgrind == old(valgrind) + (if job.returncode == 2 then 1 else 0)
                && crashed == old(crashed) + (if job.returncode < 0 || job.returncode > 2 then 1 else 0)
    {
      hide Tally, FailedList;
      TallyStep(before, job);
      FailedListStep(before, job, xml);
      if job.isBreak {
        return true;
      }
      if job.isSkip {
        skipped := skipped + 1;
      } else {
        failedJobs := failedJobs + [job];
        if job.returncode == 0 {
          passed := passed + 1;
          failedJobs := failedJobs[..|failedJobs| - 1];
        } else if job.returncode == 1 {
          failed := failed + 1;
        } else if job.returncode == 2 {
          valgrind := valgrind + 1;
        } else {
          crashed := crashed + 1;
        }
      }
      if job.kind == Suite && !job.isSkip {
        failedJobs := failedJobs + [job];
        if job.returncode == 0 || job.returncode == 1 || job.returncode == 2 {
          match xml(job) {
            case Absent => return false;
            case Present(passOrSkip) =>
              if passOrSkip {
                failedJobs := failedJobs[..|failedJobs| - 1];
              }
          }
        }
      }
      return true;
    }

    /** Collects `|results|` jobs in the order the output queue delivers them. */
    method Collect(results: seq<Job>, xml: Job -> Xml) returns (completed: bool)
      requires passed == skipped == failed == crashed == valgrind == 0 && failedJobs == []
      modifies this
      ensures completed <==> forall j :: j in results ==> !OpensAbsentFile(j, xml)
      ensures completed
              <==> !exists i :: 0 <= i < |results| && Ran(results[i]) && results[i].kind == Suite
                                && results[i].returncode in [0, 1, 2] && xml(results[i]) == Absent
      ensures completed ==> Holds(results, xml)
      ensures completed ==> skipped == |set i: nat | i < |results| && results[i].isSkip && !results[i].isBreak|
      ensures completed ==> passed == |set i: nat | i < |results| && Ran(results[i]) && results[i].returncode == 0|
      ensures completed ==> failed == |set i: nat | i < |results| && Ran(results[i]) && results[i].returncode == 1|
      ensures completed ==> valgrind == |set i: nat | i < |results| && Ran(results[i]) && results[i].returncode == 2|
      ensures completed ==>
                crashed == |set i: nat | i < |results| && Ran(results[i])
                                         && (results[i].returncode < 0 || results[i].returncode > 2)|
    {
      hide Tally, FailedList, StatusOf, Entries, OpensAbsentFile, Ran;
      forall i | 0 <= i < |results|
        ensures OpensAbsentFile(results[i], xml)
                <==> Ran(results[i]) && results[i].kind == Suite && results[i].returncode in [0, 1, 2]
                     && xml(results[i]) == Absent
      {
        AbsentMeans(results[i], xml);
      }
      NothingTallied(xml);
      assert results[..0] == [];
      for i := 0 to |results|
        invariant Holds(results[..i], xml)
        invariant forall k :: 0 <= k < i ==> !OpensAbsentFile(results[k], xml)
      {
        assert results[..i + 1] == results[..i] + [results[i]];
        var ok := Process(results[i], xml, results[..i]);
        if !ok {
          assert results[i] in results;
          return false;
        }
      }
      assert results[..|results|] == results;
      SkippedMeans(results);
      PassedMeans(results);
      FailedMeans(results);
      ValgrindMeans(results);
      CrashedMeans(results);
      return true;
    }

    /** The comparison at the end of `run_tests`. */
    method ExitCode(totalTests: nat) returns (code: int)
      ensures code == ExitOf(passed, skipped, totalTests)
    {
      if passed + skipped == totalTests {
        return 0;
      }
      return 1;
    }

    /** The collector loop and what comes after it: the exception of the loop, or the exit code. */
    method Conclude(results: seq<Job>, totalTests: nat, xml: Job -> Xml) returns (ending: Ending)
      requires passed == skipped == failed == crashed == valgrind == 0 && failedJobs == []
      modifies this
      ensures ending == EndingOf(results, totalTests, xml)
    {
      var completed := Collect(results, xml);
      if !completed {
        return Raised;
      }
      var code := ExitCode(totalTests);
      return Returned(code);
    }
  }

  /** How `run_tests` ends: by an exception nobody handles, or with an exit code. */
  datatype Ending = Raised | Returned(code: int)

  function EndingOf(results: seq<Job>, totalTests: nat, xml: Job -> Xml): Ending {
    if exists j :: j in results && OpensAbsentFile(j, xml) then Raised
    else Returned(ExitOf(Tally(results, Passed), Tally(results, Skipped), totalTests))
  }

  function ExitOf(passed: nat, skipped: nat, total: nat): int {
    if passed + skipped == total then 0 else 1
  }

  /** Every job dispatched is in exactly one of the counters or was broken by a signal. */
  lemma {:induction false} Accounting(q: seq<Job>)
    ensures Tally(q, Passed) + Tally(q, Skipped) + Tally(q, Failed) + Tally(q, Crashed)
            + Tally(q, Valgrind) + Tally(q, Broken) == |q|
  {
    if q != [] {
      Accounting(q[..|q| - 1]);
    }
  }

  predicate Succeeded(j: Job) {
    !j.isBreak && (j.isSkip || j.returncode == 0)
  }

  lemma {:induction false} ExitZeroIff(q: seq<Job>)
    ensures ExitOf(Tally(q, Passed), Tally(q, Skipped), |q|) == 0 <==> forall j :: j in q ==> Succeeded(j)
    ensures Tally(q, Passed) + Tally(q, Skipped) <= |q|
  {
    if q != [] {
      var r, j := q[..|q| - 1], q[|q| - 1];
      assert q == r + [j];
      ExitZeroIff(r);
      assert Succeeded(j) <==> StatusOf(j) in {Passed, Skipped};
      if Succeeded(j) {
        assert forall k :: k in q ==> k in r || k == j;
      } else {
        assert j in q;
      }
    }
  }

  /** The failed list keeps the order in which jobs were collected. */
  lemma {:induction false} FailedListSplits(a: seq<Job>, b: seq<Job>, xml: Job -> Xml)
    ensures FailedList(a + b, xml) == FailedList(a, xml) + FailedList(b, xml)
  {
    hide Entries;
    if b == [] {
      assert a + b == a && FailedList(a, xml) + [] == FailedList(a, xml);
    } else {
      assert (a + b)[..|a + b| - 1] == a + b[..|b| - 1];
      FailedListSplits(a, b[..|b| - 1], xml);
    }
  }

  /** What one job leaves in the list: an example that failed is there once; a suite is there once
      for a nonzero code, and once more unless its results were read as PASS or SKIP. */
  lemma OneInFailedList(j: Job, xml: Job -> Xml)
    ensures j.isBreak || j.isSkip ==> FailedList([j], xml) == []
    ensures Ran(j) && j.kind != Suite ==> FailedList([j], xml) == if j.returncode == 0 then [] else [j]
    ensures Ran(j) && j.kind == Suite && 0 <= j.returncode <= 2 && xml(j) == Present(true) ==>
              FailedList([j], xml) == if j.returncode == 0 then [] else [j]
    ensures Ran(j) && j.kind == Suite && 0 <= j.returncode <= 2 && xml(j) != Present(true) ==>
              FailedList([j], xml) == if j.returncode == 0 then [j] else [j, j]
    ensures Ran(j) && j.kind == Suite && (j.returncode < 0 || j.returncode > 2) ==> FailedList([j], xml) == [j, j]
  {
    assert [j][..0] == [];
  }

  /** A job stays in the failed list when it returned nonzero, and a suite also when its
      results file does not say PASS or SKIP or was never read; nothing else is in it. */
  lemma {:induction false} FailedListExactly(q: seq<Job>, xml: Job -> Xml, j: Job)
    ensures j in FailedList(q, xml) <==> j in q && Entries(j, xml) > 0
  {
    if q != [] {
      var r, k := q[..|q| - 1], q[|q| - 1];
      assert q == r + [k];
      FailedListExactly(r, xml, j);
      var more := seq(Entries(k, xml), _ => k);
      assert j in more <==> j == k && Entries(k, xml) > 0 by {
        if j == k && Entries(k, xml) > 0 {
          assert more[0] == j;
        }
      }
    }
  }

  /** Read for a job that was neither skipped nor broken. */
  lemma WhoIsListedAsFailed(q: seq<Job>, xml: Job -> Xml, j: Job)
    requires j in q && !j.isBreak && !j.isSkip
    ensures j.returncode != 0 ==> j in FailedList(q, xml)
    ensures j.returncode == 0 ==> (j in FailedList(q, xml) <==> j.kind == Suite && xml(j) != Present(true))
  {
    FailedListExactly(q, xml, j);
  }
}
