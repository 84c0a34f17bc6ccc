/** The statistics of bench-scheduler.cc over real numbers: Welford's online mean and second
    moment for the six figures of a benchmark run. */
module RunStatistics {

  datatype Phase = Phase(time: real, rate: real, period: real)

  datatype Result = Result(init: Phase, run: Phase)

  datatype Field = InitTime | InitRate | InitPeriod | RunTime | RunRate | RunPeriod

  function Get(r: Result, f: Field): real {
    match f
    case InitTime => r.init.time
    case InitRate => r.init.rate
    case InitPeriod => r.init.period
    case RunTime => r.run.time
    case RunRate => r.run.rate
    case RunPeriod => r.run.period
  }

  // ---------------------------------------------------------------------------------------
  // Mean and squared deviations, declared
  // ---------------------------------------------------------------------------------------

  function Sum(rs: seq<Result>, f: Field): real {
    if rs == [] then 0.0 else Sum(rs[..|rs| - 1], f) + Get(rs[|rs| - 1], f)
  }

  function Ratio(s: real, n: real): real
    requires n != 0.0
  {
    s / n
  }

  function Product(a: real, b: real): real {
    a * b
  }

  function Square(x: real): real {
    Product(x, x)
  }

  function Mean(rs: seq<Result>, f: Field): real
    requires rs != []
  {
    Ratio(Sum(rs, f), |rs| as real)
  }

  /** Sum of the squared distances from `c`. */
  function Squares(rs: seq<Result>, f: Field, c: real): real {
    if rs == [] then 0.0
    else Squares(rs[..|rs| - 1], f, c) + Square(Get(rs[|rs| - 1], f) - c)
  }

  /** What moving the centre from `c` to `d` adds, for `n` samples with sum `s`. */
  function Shift(n: real, s: real, c: real, d: real): real {
    2.0 * (c - d) * (s - n * c) + n * ((c - d) * (c - d))
  }

  lemma ShiftStep(s: real, n: real, x: real, c: real, d: real)
    ensures Shift(n, s, c, d) + Square(x - d) == Square(x - c) + Shift(n + 1.0, s + x, c, d)
  {
    var e, a, u := c - d, x - c, s - n * c;
    assert x - d == a + e;
    assert (a + e) * (a + e) == a * a + 2.0 * (e * a) + e * e;
    assert s + x - (n + 1.0) * c == u + a;
    assert 2.0 * e * (u + a) == 2.0 * e * u + 2.0 * (e * a);
    assert (n + 1.0) * (e * e) == n * (e * e) + e * e;
  }

  lemma {:induction false} SquaresShift(rs: seq<Result>, f: Field, c: real, d: real)
    ensures Squares(rs, f, d) == Squares(rs, f, c) + Shift(|rs| as real, Sum(rs, f), c, d)
  {
    hide Shift, Square;
    if rs == [] {
      NoShift(c, d);
    } else {
      var a, x := rs[..|rs| - 1], Get(rs[|rs| - 1], f);
      SquaresShift(a, f, c, d);
      assert |rs| as real == |a| as real + 1.0;
      ShiftStep(Sum(a, f), |a| as real, x, c, d);
    }
  }

  lemma NoShift(c: real, d: real)
    ensures Shift(0.0, 0.0, c, d) == 0.0
  {
  }

  lemma PositiveProduct(a: real, b: real)
    requires a > 0.0 && b > 0.0
    ensures Product(a, b) > 0.0
  {
  }

  lemma PositiveSquare(y: real)
    requires y > 0.0
    ensures Square(y) > 0.0
  {
    hide Product;
    PositiveProduct(y, y);
  }

  lemma EvenSquare(x: real)
    ensures Square(-x) == Square(x)
  {
  }

  lemma SquareIsZero(x: real)
    ensures Square(x) >= 0.0
    ensures Square(x) == 0.0 <==> x == 0.0
  {
    hide Square;
    if x > 0.0 {
      PositiveSquare(x);
    } else if x < 0.0 {
      PositiveSquare(-x);
      EvenSquare(x);
    } else {
      ZeroSquare();
    }
  }

  lemma ZeroSquare()
    ensures Square(0.0) == 0.0
  {
  }

  lemma {:induction false} SquaresNonNegative(rs: seq<Result>, f: Field, c: real)
    ensures Squares(rs, f, c) >= 0.0
    ensures Squares(rs, f, c) == 0.0 <==> forall i :: 0 <= i < |rs| ==> Get(rs[i], f) == c
  {
    hide Square;
    if rs != [] {
      var a, x := rs[..|rs| - 1], Get(rs[|rs| - 1], f) - c;
      SquaresNonNegative(a, f, c);
      SquareIsZero(x);
      assert forall i :: 0 <= i < |a| ==> a[i] == rs[i];
    }
  }

  // ---------------------------------------------------------------------------------------
  // One update
  // ---------------------------------------------------------------------------------------

  /** The invariant of the loop: exact once there is a sample, and no moment before. */
  ghost predicate Exact(rs: seq<Result>, f: Field, average: real, moment2: real) {
    if rs == [] then moment2 == 0.0
    else average == Mean(rs, f) && moment2 == Squares(rs, f, Mean(rs, f))
  }

  lemma Divide(s: real, n: real)
    requires n != 0.0
    ensures n * (s / n) == s
  {
  }

  lemma Cancel(k: real, a: real, b: real)
    requires k > 0.0 && k * a == k * b
    ensures a == b
  {
    assert k * (a - b) == 0.0;
  }

  /** The new mean from the old one. */
  lemma MeanUpdate(n: real, s: real, x: real)
    requires n > 0.0
    ensures Ratio(s + x, n + 1.0) == Ratio(s, n) + (x - Ratio(s, n)) / (n + 1.0)
  {
    var m, m', k := s / n, (s + x) / (n + 1.0), n + 1.0;
    Divide(s, n);
    Divide(s + x, k);
    Divide(x - m, k);
    assert k * (m' - m) == x - m;
    Cancel(k, m' - m, (x - m) / k);
  }

  /** The increment of the second moment is what the shift of the mean and the new sample add. */
  lemma MomentUpdate(n: real, s: real, x: real)
    requires n > 0.0
    ensures var m := Ratio(s, n); var m' := Ratio(s + x, n + 1.0);
            Shift(n, s, m, m') + Square(x - m') == Product(x - m, x - m')
  {
    var m, m' := s / n, (s + x) / (n + 1.0);
    Divide(s, n);
    Divide(s + x, n + 1.0);
    var e := m' - m;
    assert (n + 1.0) * e == x - m;
    MomentArithmetic(n, s, x, m, m', e);
  }

  lemma MomentArithmetic(n: real, s: real, x: real, m: real, m': real, e: real)
    requires n * m == s && m' == m + e && (n + 1.0) * e == x - m
    ensures Shift(n, s, m, m') + Square(x - m') == (x - m) * (x - m')
  {
    assert x - m' == n * e;
    assert (m - m') * (m - m') == e * e;
    assert 2.0 * (m - m') * (s - n * m) == 0.0;
    assert ((n + 1.0) * e) * (n * e) == n * (e * e) + (n * e) * (n * e);
  }

  /** The new average and second moment, from the old ones and the sample number `count`. */
  function Updated(average: real, moment2: real, x: real, count: real): (real, real)
    requires count != 0.0
  {
    var a := average + (x - average) / count;
    (a, moment2 + Product(x - average, x - a))
  }

  lemma UpdatedFromMean(n: real, s: real, x: real, q: real)
    requires n > 0.0
    ensures var m, m' := Ratio(s, n), Ratio(s + x, n + 1.0);
            Updated(m, q, x, n + 1.0) == (m', q + Shift(n, s, m, m') + Square(x - m'))
  {
    hide Ratio, Shift, Square, Product;
    MeanUpdate(n, s, x);
    MomentUpdate(n, s, x);
  }

  /** The body of the ACCUMULATE macro. */
  method Update(x: real, average: real, moment2: real, count: nat) returns (average': real, moment2': real)
    requires count > 0
    ensures (average', moment2') == Updated(average, moment2, x, count as real)
  {
    hide Product;
    var deltaPre := x - average;
    average' := average + deltaPre / count as real;
    var deltaPost := x - average';
    moment2' := moment2 + Product(deltaPre, deltaPost);
  }

  /** The macro for one figure of one phase. */
  method Accumulate(ghost before: seq<Result>, run: Result, f: Field, average: real, moment2: real, count: nat)
    returns (average': real, moment2': real)
    requires count == |before| + 1
    requires Exact(before, f, average, moment2)
    ensures Exact(before + [run], f, average', moment2')
  {
    hide Exact, Updated;
    average', moment2' := Update(Get(run, f), average, moment2, count);
    AccumulateExact(before, run, f, average, moment2);
  }

  /** The six uses of the macro in the loop. */
  method AccumulateAll(ghost before: seq<Result>, run: Result, average: Result, moment2: Result, count: nat)
    returns (average': Result, moment2': Result)
    requires count == |before| + 1
    requires forall f :: Exact(before, f, Get(average, f), Get(moment2, f))
    ensures forall f :: Exact(before + [run], f, Get(average', f), Get(moment2', f))
  {
    hide Exact;
    var a1, m1 := Accumulate(before, run, InitTime, Get(average, InitTime), Get(moment2, InitTime), count);
    var a2, m2 := Accumulate(before, run, InitRate, Get(average, InitRate), Get(moment2, InitRate), count);
    var a3, m3 := Accumulate(before, run, InitPeriod, Get(average, InitPeriod), Get(moment2, InitPeriod), count);
    var a4, m4 := Accumulate(before, run, RunTime, Get(average, RunTime), Get(moment2, RunTime), count);
    var a5, m5 := Accumulate(before, run, RunRate, Get(average, RunRate), Get(moment2, RunRate), count);
    var a6, m6 := Accumulate(before, run, RunPeriod, Get(average, RunPeriod), Get(moment2, RunPeriod), count);
    average' := Result(Phase(a1, a2, a3), Phase(a4, a5, a6));
    moment2' := Result(Phase(m1, m2, m3), Phase(m4, m5, m6));
  }

  lemma AccumulateExact(before: seq<Result>, run: Result, f: Field, average: real, moment2: real)
    requires Exact(before, f, average, moment2)
    ensures var u := Updated(average, moment2, Get(run, f), (|before| + 1) as real); Exact(before + [run], f, u.0, u.1)
  {
    hide Updated, Squares, Sum;
    if before == [] {
      FirstSample(run, f, average);
      assert before + [run] == [run];
    } else {
      LaterSample(before, run, f);
    }
  }

  lemma ProductWithZero(a: real)
    ensures Product(a, 0.0) == 0.0
  {
  }

  lemma FirstSample(run: Result, f: Field, average: real)
    ensures Mean([run], f) == Get(run, f) && Squares([run], f, Get(run, f)) == 0.0
    ensures Updated(average, 0.0, Get(run, f), 1.0) == (Get(run, f), 0.0)
  {
    assert [run][..0] == [];
    assert Sum([run], f) == Get(run, f);
    RatioOfMultiple(1.0, Get(run, f));
    SquareIsZero(0.0);
    var x := Get(run, f);
    assert average + (x - average) / 1.0 == x;
    ProductWithZero(x - average);
  }

  lemma LaterSample(before: seq<Result>, run: Result, f: Field)
    requires before != []
    ensures var all := before + [run];
            Updated(Mean(before, f), Squares(before, f, Mean(before, f)), Get(run, f), (|before| + 1) as real)
            == (Mean(all, f), Squares(all, f, Mean(all, f)))
  {
    hide Ratio, Square, Shift, Get, Updated;
    var all, x, n := before + [run], Get(run, f), |before| as real;
    assert all[..|before|] == before && all[|before|] == run;
    assert |all| as real == n + 1.0 == (|before| + 1) as real;
    UpdatedFromMean(n, Sum(before, f), x, Squares(before, f, Mean(before, f)));
    SquaresShift(before, f, Mean(before, f), Mean(all, f));
  }

  class BenchSuite {
    var results: seq<Result>

    constructor (results: seq<Result>)
      ensures this.results == results
    {
      this.results := results;
    }

    /** With fewer than two runs nothing is computed. Otherwise every figure of `average` is the
        mean of that figure over the runs and every figure of `moment2` the sum of the squared
        deviations from that mean, although `average` starts out as the first run. */
    method Log() returns (logged: bool, average: Result, moment2: Result)
      ensures logged <==> |results| >= 2
      ensures logged ==> forall f :: Get(average, f) == Mean(results, f)
      ensures logged ==> forall f :: Get(moment2, f) == Squares(results, f, Mean(results, f))
      ensures logged ==> forall f :: Get(moment2, f) >= 0.0
      ensures logged ==>
                forall f :: Get(moment2, f) == 0.0
                            <==> forall i :: 0 <= i < |results| ==> Get(results[i], f) == Get(results[0], f)
    {
      var zero := Phase(0.0, 0.0, 0.0);
      if |results| < 2 {
        return false, Result(zero, zero), Result(zero, zero);
      }
      logged := true;
      average := results[0];
      moment2 := Result(zero, zero);
      var n := 0;
      while n < |results|
        invariant 0 <= n <= |results|
        invariant forall f :: Exact(results[..n], f, Get(average, f), Get(moment2, f))
      {
        assert results[..n + 1] == results[..n] + [results[n]];
        average, moment2 := AccumulateAll(results[..n], results[n], average, moment2, n + 1);
        n := n + 1;
      }
      assert results[..|results|] == results;
      forall f
        ensures Squares(results, f, Mean(results, f)) >= 0.0
        ensures Squares(results, f, Mean(results, f)) == 0.0
                <==> forall i :: 0 <= i < |results| ==> Get(results[i], f) == Get(results[0], f)
      {
        SquaresNonNegative(results, f, Mean(results, f));
        ConstantMean(results, f);
      }
    }
  }

  lemma {:induction false} ConstantSum(rs: seq<Result>, f: Field, c: real)
    requires forall i :: 0 <= i < |rs| ==> Get(rs[i], f) == c
    ensures Sum(rs, f) == |rs| as real * c
  {
    if rs != [] {
      var a := rs[..|rs| - 1];
      ConstantSum(a, f, c);
      assert |rs| as real * c == (|a| as real + 1.0) * c;
    }
  }

  /** If all samples agree, they agree with their mean. */
  lemma ConstantMean(rs: seq<Result>, f: Field)
    requires rs != []
    ensures (forall i :: 0 <= i < |rs| ==> Get(rs[i], f) == Get(rs[0], f))
            <==> forall i :: 0 <= i < |rs| ==> Get(rs[i], f) == Mean(rs, f)
  {
    var c := Get(rs[0], f);
    if forall i :: 0 <= i < |rs| ==> Get(rs[i], f) == c {
      ConstantSum(rs, f, c);
      RatioOfMultiple(|rs| as real, c);
    }
  }

  lemma RatioOfMultiple(n: real, c: real)
    requires n > 0.0
    ensures Ratio(n * c, n) == c
  {
    Divide(n * c, n);
    Cancel(n, (n * c) / n, c);
  }

  /** No other centre brings the squared deviations below those from the mean. */
  lemma {:induction false} MeanIsBest(rs: seq<Result>, f: Field, c: real)
    requires rs != []
    ensures Squares(rs, f, Mean(rs, f)) <= Squares(rs, f, c)
    ensures Squares(rs, f, Mean(rs, f)) == Squares(rs, f, c) <==> c == Mean(rs, f)
  {
    hide Ratio, Shift, Square, Squares;
    SquaresShift(rs, f, Mean(rs, f), c);
    ShiftFromMean(|rs| as real, Sum(rs, f), c);
  }

  lemma ShiftFromMean(n: real, s: real, c: real)
    requires n > 0.0
    ensures var m := Ratio(s, n); Shift(n, s, m, c) >= 0.0 && (Shift(n, s, m, c) == 0.0 <==> c == m)
  {
    var m := s / n;
    Divide(s, n);
    var e := m - c;
    SquareIsZero(e);
    assert 2.0 * e * (s - n * m) == 0.0;
    assert n * (e * e) >= 0.0;
    if n * (e * e) == 0.0 {
      Cancel(n, e * e, 0.0);
    }
  }
}
