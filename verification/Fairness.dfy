/** Byte counters and Jain's fairness index of dctcp-example.cc, in 64-bit unsigned arithmetic. */
module Fairness {

  const WORD: nat := 0x1_0000_0000_0000_0000

  type Word = x: nat | x < WORD

  /** What a 64-bit register keeps of a natural number. */
  function Wrap(x: nat): Word {
    x % WORD
  }

  function Times(a: int, b: int): int {
    a * b
  }

  // ---------------------------------------------------------------------------------------
  // The true sums
  // ---------------------------------------------------------------------------------------

  function Sum(xs: seq<nat>): nat {
    if xs == [] then 0 else Sum(xs[..|xs| - 1]) + xs[|xs| - 1]
  }

  function SumSquares(xs: seq<nat>): int {
    if xs == [] then 0 else SumSquares(xs[..|xs| - 1]) + Times(xs[|xs| - 1], xs[|xs| - 1])
  }

  /** Squared distances of all members from `c`. */
  function Distance(xs: seq<nat>, c: nat): int {
    if xs == [] then 0 else Distance(xs[..|xs| - 1], c) + Times(xs[|xs| - 1] - c, xs[|xs| - 1] - c)
  }

  /** The sum of the squared differences over all pairs, and that of the products. */
  function Spread(xs: seq<nat>): int {
    if xs == [] then 0 else Spread(xs[..|xs| - 1]) + Distance(xs[..|xs| - 1], xs[|xs| - 1])
  }

  function Cross(xs: seq<nat>): int {
    if xs == [] then 0 else Cross(xs[..|xs| - 1]) + Times(xs[|xs| - 1], Sum(xs[..|xs| - 1]))
  }

  predicate AllEqual(xs: seq<nat>) {
    forall i, j :: 0 <= i < |xs| && 0 <= j < |xs| ==> xs[i] == xs[j]
  }

  predicate AtMostOnePositive(xs: seq<nat>) {
    forall i, j :: 0 <= i < j < |xs| ==> xs[i] == 0 || xs[j] == 0
  }

  predicate AllZero(xs: seq<nat>) {
    forall i :: 0 <= i < |xs| ==> xs[i] == 0
  }

  lemma SquareSign(x: int)
    ensures Times(x, x) >= 0
    ensures Times(x, x) == 0 <==> x == 0
  {
  }

  lemma {:induction false} SumIsZero(xs: seq<nat>)
    ensures Sum(xs) == 0 <==> AllZero(xs)
  {
    if xs != [] {
      var a := xs[..|xs| - 1];
      SumIsZero(a);
      assert forall i :: 0 <= i < |a| ==> a[i] == xs[i];
    }
  }

  lemma {:induction false} SquaresAreZero(xs: seq<nat>)
    ensures SumSquares(xs) >= 0
    ensures SumSquares(xs) == 0 <==> AllZero(xs)
  {
    hide Times;
    if xs != [] {
      var a := xs[..|xs| - 1];
      SquaresAreZero(a);
      SquareSign(xs[|xs| - 1]);
      assert forall i :: 0 <= i < |a| ==> a[i] == xs[i];
    }
  }

  lemma {:induction false} DistanceIsZero(xs: seq<nat>, c: nat)
    ensures Distance(xs, c) >= 0
    ensures Distance(xs, c) == 0 <==> forall i :: 0 <= i < |xs| ==> xs[i] == c
  {
    hide Times;
    if xs != [] {
      var a := xs[..|xs| - 1];
      DistanceIsZero(a, c);
      SquareSign(xs[|xs| - 1] - c);
      assert forall i :: 0 <= i < |a| ==> a[i] == xs[i];
    }
  }

  lemma DistanceStep(q: int, s: int, n: int, x: int, c: int)
    ensures q - 2 * Times(c, s) + Times(n, Times(c, c)) + Times(x - c, x - c)
            == q + Times(x, x) - 2 * Times(c, s + x) + Times(n + 1, Times(c, c))
  {
    assert (x - c) * (x - c) == x * x - 2 * (c * x) + c * c;
    assert c * (s + x) == c * s + c * x;
    assert (n + 1) * (c * c) == n * (c * c) + c * c;
  }

  lemma TimesZero(a: int)
    ensures Times(a, 0) == 0 == Times(0, a)
  {
  }

  lemma {:induction false} DistanceExpands(xs: seq<nat>, c: nat)
    ensures Distance(xs, c) == SumSquares(xs) - 2 * Times(c, Sum(xs)) + Times(|xs|, Times(c, c))
  {
    hide Times;
    if xs == [] {
      TimesZero(c);
      TimesZero(Times(c, c));
    } else {
      var a, x := xs[..|xs| - 1], xs[|xs| - 1];
      DistanceExpands(a, c);
      DistanceStep(SumSquares(a), Sum(a), |a|, x, c);
    }
  }

  lemma SpreadStep(n: int, q: int, s: int, x: int)
    ensures Times(n, q) - Times(s, s) + (q - 2 * Times(x, s) + Times(n, Times(x, x)))
            == Times(n + 1, q + Times(x, x)) - Times(s + x, s + x)
  {
    var y := x * x;
    assert (n + 1) * (q + y) == n * q + n * y + q + y;
    assert (s + x) * (s + x) == s * s + 2 * (x * s) + y;
  }

  /** The identity behind the inequality of Cauchy and Schwarz. */
  lemma {:induction false} SpreadIs(xs: seq<nat>)
    ensures Spread(xs) == Times(|xs|, SumSquares(xs)) - Times(Sum(xs), Sum(xs))
  {
    hide Times;
    if xs == [] {
      TimesZero(0);
    } else {
      var a, x := xs[..|xs| - 1], xs[|xs| - 1];
      SpreadIs(a);
      DistanceExpands(a, x);
      SpreadStep(|a|, SumSquares(a), Sum(a), x);
    }
  }

  lemma {:induction false} SpreadIsZero(xs: seq<nat>)
    ensures Spread(xs) >= 0
    ensures Spread(xs) == 0 <==> AllEqual(xs)
  {
    hide Distance;
    if xs != [] {
      var a, x := xs[..|xs| - 1], xs[|xs| - 1];
      SpreadIsZero(a);
      DistanceIsZero(a, x);
      assert forall i :: 0 <= i < |a| ==> a[i] == xs[i];
      if AllEqual(xs) {
        assert forall i :: 0 <= i < |a| ==> a[i] == x;
      }
    }
  }

  /** The square of the sum never exceeds the number of counters times the sum of the squares,
      and reaches it exactly when the counters agree. */
  lemma {:induction false} CauchySchwarz(xs: seq<nat>)
    ensures Times(Sum(xs), Sum(xs)) <= Times(|xs|, SumSquares(xs))
    ensures Times(Sum(xs), Sum(xs)) == Times(|xs|, SumSquares(xs)) <==> AllEqual(xs)
  {
    hide Times;
    SpreadIs(xs);
    SpreadIsZero(xs);
  }

  lemma CrossStep(s: int, q: int, k: int, x: int)
    requires Times(s, s) == q + 2 * k
    ensures Times(s + x, s + x) == q + Times(x, x) + 2 * (k + Times(x, s))
  {
    assert (s + x) * (s + x) == s * s + 2 * (x * s) + x * x;
  }

  lemma ProductSign(a: nat, b: nat)
    ensures Times(a, b) >= 0
    ensures Times(a, b) == 0 <==> a == 0 || b == 0
  {
  }

  lemma {:induction false} CrossIs(xs: seq<nat>)
    ensures Times(Sum(xs), Sum(xs)) == SumSquares(xs) + 2 * Cross(xs)
    ensures Cross(xs) >= 0
    ensures Cross(xs) == 0 <==> AtMostOnePositive(xs)
  {
    hide Times;
    if xs == [] {
      TimesZero(0);
    } else {
      var a, x := xs[..|xs| - 1], xs[|xs| - 1];
      CrossIs(a);
      CrossStep(Sum(a), SumSquares(a), Cross(a), x);
      ProductSign(x, Sum(a));
      SumIsZero(a);
      assert forall i :: 0 <= i < |a| ==> a[i] == xs[i];
      if AtMostOnePositive(xs) && x != 0 {
        assert AllZero(a);
      }
    }
  }

  // ---------------------------------------------------------------------------------------
  // The index as the program computes it
  // ---------------------------------------------------------------------------------------

  /** A floating-point quotient of two words. */
  datatype Quotient = NotANumber | Infinite | Finite(value: real)

  function Ratio(a: nat, b: nat): real
    requires b != 0
  {
    a as real / b as real
  }

  function Divide(a: nat, b: nat): Quotient {
    if b != 0 then Finite(Ratio(a, b)) else if a == 0 then NotANumber else Infinite
  }

  lemma AddWrapped(a: nat, b: nat)
    ensures Wrap(Wrap(a) + b) == Wrap(a + b)
  {
  }

  lemma MultiplyWrapped(a: nat, b: nat, q: nat)
    requires a == q * WORD + Wrap(a)
    ensures Wrap(a) * b >= 0 && a * b >= 0 && Wrap(Wrap(a) * b) == Wrap(a * b)
  {
    assert a * b == (q * b) * WORD + Wrap(a) * b;
    MultipleVanishes(q * b, Wrap(a) * b);
  }

  lemma MultipleVanishes(k: nat, r: nat)
    ensures Wrap(k * WORD + r) == Wrap(r)
  {
  }

  lemma TimesWrapped(a: nat, b: nat)
    ensures Times(a, b) >= 0 && Times(Wrap(a), Wrap(b)) >= 0
    ensures Wrap(Times(Wrap(a), Wrap(b))) == Wrap(Times(a, b))
  {
    MultiplyWrapped(a, Wrap(b), a / WORD);
    MultiplyWrapped(b, a, b / WORD);
    assert Wrap(a) * Wrap(b) == Times(Wrap(a), Wrap(b));
    assert Wrap(b) * a == a * Wrap(b);
  }

  lemma WordWraps(x: Word)
    ensures Wrap(x) == x
  {
  }

  /** The quotient for one group, wrapped only in the numerator and the denominator. */
  function Reported(xs: seq<nat>): Quotient {
    SquareSign(Sum(xs)); SquaresAreZero(xs); ProductSign(|xs|, SumSquares(xs));
    Divide(Wrap(Times(Sum(xs), Sum(xs))), Wrap(Times(|xs|, SumSquares(xs))))
  }

  /** Jain's index of the true counts. */
  function Jain(xs: seq<nat>): Quotient {
    SquareSign(Sum(xs)); SquaresAreZero(xs); ProductSign(|xs|, SumSquares(xs));
    Divide(Times(Sum(xs), Sum(xs)), Times(|xs|, SumSquares(xs)))
  }

  /** The loop over one group of counters and the quotient after it, each operation wrapping. */
  method GroupFairness(a: array<Word>) returns (sum: Word, sumSquares: Word, fairness: Quotient)
    ensures sum == Wrap(Sum(a[..]))
    ensures SumSquares(a[..]) >= 0 && sumSquares == Wrap(SumSquares(a[..]))
    ensures fairness == Reported(a[..])
  {
    hide Times, Wrap, Divide;
    sum, sumSquares := 0, 0;
    WordWraps(0);
    for i := 0 to a.Length
      invariant sum == Wrap(Sum(a[..i]))
      invariant SumSquares(a[..i]) >= 0 && sumSquares == Wrap(SumSquares(a[..i]))
    {
      assert a[..i + 1][..i] == a[..i];
      SquaresAreZero(a[..i]);
      SquareSign(a[i]);
      AddWrapped(Sum(a[..i]), a[i]);
      AddWrapped(SumSquares(a[..i]), Wrap(Times(a[i], a[i])));
      AddWrapped(Times(a[i], a[i]), SumSquares(a[..i]));
      sum := Wrap(sum + a[i]);
      sumSquares := Wrap(sumSquares + Wrap(Times(a[i], a[i])));
    }
    assert a[..a.Length] == a[..];
    SquareSign(sum);
    ProductSign(a.Length, sumSquares);
    TimesWrapped(Sum(a[..]), Sum(a[..]));
    WrappedProduct(a.Length, SumSquares(a[..]));
    fairness := Divide(Wrap(Times(sum, sum)), Wrap(Times(a.Length, sumSquares)));
  }

  lemma WrappedProduct(n: nat, q: nat)
    ensures Times(n, q) >= 0 && Times(n, Wrap(q)) >= 0
    ensures Wrap(Times(n, Wrap(q))) == Wrap(Times(n, q))
  {
    MultiplyWrapped(q, n, q / WORD);
    assert Wrap(q) * n == n * Wrap(q) && q * n == n * q;
  }

  // ---------------------------------------------------------------------------------------
  // When the arithmetic is exact, and what the index then is
  // ---------------------------------------------------------------------------------------

  /** No operation of the group's loop or quotient loses anything. */
  ghost predicate Exact(xs: seq<nat>) {
    && Sum(xs) < WORD
    && SumSquares(xs) < WORD
    && (forall i :: 0 <= i < |xs| ==> Times(xs[i], xs[i]) < WORD)
    && Times(Sum(xs), Sum(xs)) < WORD
    && Times(|xs|, SumSquares(xs)) < WORD
  }

  lemma TimesGrows(n: nat, q: nat)
    requires n > 0
    ensures Times(n, q) >= q
  {
    assert n * q >= q;
  }

  lemma {:induction false} SquareWithin(xs: seq<nat>, i: nat)
    requires i < |xs|
    ensures Times(xs[i], xs[i]) <= SumSquares(xs)
  {
    hide Times;
    var a, x := xs[..|xs| - 1], xs[|xs| - 1];
    SquaresAreZero(a);
    SquareSign(x);
    if i < |a| {
      SquareWithin(a, i);
    }
  }

  /** The denominator is the first to overflow. */
  lemma ExactIff(xs: seq<nat>)
    requires xs != []
    ensures Exact(xs) <==> Times(|xs|, SumSquares(xs)) < WORD
  {
    hide Times, SumSquares, Sum;
    CauchySchwarz(xs);
    SquaresAreZero(xs);
    TimesGrows(|xs|, SumSquares(xs));
    SquareSign(Sum(xs));
    if Sum(xs) > 0 {
      TimesGrows(Sum(xs), Sum(xs));
    }
    forall i | 0 <= i < |xs|
      ensures Times(xs[i], xs[i]) <= SumSquares(xs)
    {
      SquareWithin(xs, i);
    }
  }

  lemma SquareMonotone(a: nat, b: nat)
    requires a <= b
    ensures Times(a, a) <= Times(b, b)
  {
    assert a * a <= a * b <= b * b;
  }

  lemma {:induction false} SquaresBounded(xs: seq<nat>, m: nat)
    requires forall i :: 0 <= i < |xs| ==> xs[i] <= m
    ensures SumSquares(xs) <= Times(|xs|, Times(m, m))
  {
    if xs == [] {
      TimesZero(Times(m, m));
    } else {
      var a, x := xs[..|xs| - 1], xs[|xs| - 1];
      SquaresBounded(a, m);
      SquareMonotone(x, m);
      assert (|a| + 1) * (m * m) == |a| * (m * m) + m * m;
    }
  }

  lemma NestedSquare(n: nat, m: nat, q: nat)
    requires q <= Times(n, Times(m, m)) && Times(n, m) < 0x1_0000_0000
    ensures Times(n, q) < WORD
  {
    var p := n * m;
    assert n * q <= n * (n * (m * m));
    assert n * (n * (m * m)) == p * p;
    SquareMonotone(p, 0xFFFF_FFFF);
    assert p * p <= 0xFFFF_FFFF * 0xFFFF_FFFF;
  }

  /** Counters up to `m`, with their number times `m` below 2 to the power 32, are safe. */
  lemma SmallCountersAreExact(xs: seq<nat>, m: nat)
    requires xs != [] && (forall i :: 0 <= i < |xs| ==> xs[i] <= m)
    requires Times(|xs|, m) < 0x1_0000_0000
    ensures Exact(xs)
  {
    hide Times;
    SquaresAreZero(xs);
    SquaresBounded(xs, m);
    NestedSquare(|xs|, m, SumSquares(xs));
    ExactIff(xs);
  }

  lemma RatioAtMostOne(a: nat, b: nat)
    requires a <= b && b > 0
    ensures Ratio(a, b) <= 1.0
    ensures Ratio(a, b) == 1.0 <==> a == b
  {
    var r := a as real / b as real;
    assert r * b as real == a as real;
  }

  lemma RatioAtLeast(a: nat, n: nat, q: nat)
    requires q <= a && n > 0 && q > 0
    ensures Times(n, q) > 0 && Ratio(a, Times(n, q)) >= Ratio(1, n)
    ensures Ratio(a, Times(n, q)) == Ratio(1, n) <==> a == q
  {
    var x, y, u, v := n as real, q as real, a as real, 1.0 / (n as real);
    var r := u / (x * y);
    assert Times(n, q) as real == x * y;
    assert r * (x * y) == u;
    assert v * x == 1.0;
    assert v * (x * y) == y;
    assert (r - v) * (x * y) == u - y;
    SignOfFactor(r - v, x * y);
  }

  lemma SignOfFactor(d: real, p: real)
    requires p > 0.0 && d * p >= 0.0
    ensures d >= 0.0 && (d == 0.0 <==> d * p == 0.0)
  {
  }

  /** With exact arithmetic the index is Jain's, and a number exactly when some counter is not zero; it then
      lies between one over the number of counters and one, the upper end meaning that all
      counters agree and the lower end that only one of them is not zero. */
  lemma {:induction false} JainBounds(xs: seq<nat>)
    requires xs != [] && Exact(xs)
    ensures Reported(xs) == Jain(xs)
    ensures Reported(xs) == NotANumber <==> AllZero(xs)
    ensures Reported(xs).Finite? <==> !AllZero(xs)
    ensures !AllZero(xs) ==> Ratio(1, |xs|) <= Reported(xs).value <= 1.0
    ensures !AllZero(xs) ==> (Reported(xs).value == 1.0 <==> AllEqual(xs))
    ensures !AllZero(xs) ==> (Reported(xs).value == Ratio(1, |xs|) <==> AtMostOnePositive(xs))
  {
    hide Times, Sum, SumSquares, Ratio;
    var s, q := Sum(xs), SumSquares(xs);
    SumIsZero(xs);
    SquaresAreZero(xs);
    ProductSign(|xs|, q);
    SquareSign(s);
    CauchySchwarz(xs);
    if !AllZero(xs) {
      CrossIs(xs);
      RatioAtMostOne(Times(s, s), Times(|xs|, q));
      RatioAtLeast(Times(s, s), |xs|, q);
    }
  }

  // ---------------------------------------------------------------------------------------
  // What wrapping does to the index
  // ---------------------------------------------------------------------------------------

  /** Equal counters report one, or nothing at all when the wrapped square of their sum is zero. */
  lemma {:induction false} EqualCountersReport(xs: seq<nat>)
    requires AllEqual(xs)
    ensures Times(Sum(xs), Sum(xs)) >= 0
    ensures Reported(xs) == if Wrap(Times(Sum(xs), Sum(xs))) == 0 then NotANumber else Finite(1.0)
  {
    hide Times, Sum, SumSquares, Ratio, Wrap;
    SquareSign(Sum(xs));
    CauchySchwarz(xs);
    var w := Wrap(Times(Sum(xs), Sum(xs)));
    if w != 0 {
      RatioAtMostOne(w, w);
    }
  }

  lemma {:induction false} SumOfEqual(n: nat, c: nat)
    ensures Sum(seq(n, _ => c)) == Times(n, c)
  {
    var xs := seq(n, _ => c);
    if n > 0 {
      SumOfEqual(n - 1, c);
      assert xs[..n - 1] == seq(n - 1, _ => c);
      assert n * c == (n - 1) * c + c;
    } else {
      TimesZero(c);
    }
  }

  /** Ten flows of 4 GiB each are perfectly fair, and no index is reported for them. */
  lemma FairButUnreported()
    ensures AllEqual(seq(10, _ => 0x1_0000_0000))
    ensures Reported(seq(10, _ => 0x1_0000_0000)) == NotANumber
  {
    var c: nat := 0x1_0000_0000;
    SumOfEqual(10, c);
    EqualCountersReport(seq(10, _ => c));
    MultipleVanishes(100, 0);
  }

  lemma {:induction false} OneAmongZeros(n: nat, x: nat)
    ensures Sum([x] + seq(n, _ => 0)) == x && SumSquares([x] + seq(n, _ => 0)) == Times(x, x)
  {
    var xs := [x] + seq(n, _ => 0);
    if n > 0 {
      OneAmongZeros(n - 1, x);
      assert xs[..n] == [x] + seq(n - 1, _ => 0);
    } else {
      assert xs == [x] && xs[..0] == [];
    }
  }

  /** One flow of 1358187914 bytes among ten is as unfair as can be, and its index is above one. */
  lemma UnfairButAboveOne()
    ensures AtMostOnePositive([1358187914] + seq(9, _ => 0))
    ensures Reported([1358187914] + seq(9, _ => 0)).Finite?
    ensures Reported([1358187914] + seq(9, _ => 0)).value > 1.0
  {
    OneAmongZeros(9, 1358187914);
  }
}
