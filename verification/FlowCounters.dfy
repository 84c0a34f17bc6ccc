/** The byte counters of dctcp-example.cc over whole runs: what the receive callbacks and the
    scheduled reset leave in them, and what is then printed. */
module FlowCounters {

  import opened Fairness

  datatype Group = S1R1 | S2R2 | S3R1

  function Flows(g: Group): nat {
    match g
    case S1R1 => 10
    case S2R2 => 20
    case S3R1 => 10
  }

  /** What the simulator calls: a receive callback with the size of its packet, or the reset
      that ends the convergence time. */
  datatype Event = Received(group: Group, index: nat, size: nat) | Reset

  predicate Possible(e: Event) {
    e.Received? ==> e.index < Flows(e.group) && e.size < 0x1_0000_0000
  }

  /** The bytes one flow received after the last reset. */
  function Counted(events: seq<Event>, g: Group, i: nat): nat {
    if events == [] then 0
    else
      var before, e := events[..|events| - 1], events[|events| - 1];
      match e
      case Reset => 0
      case Received(h, j, size) => Counted(before, g, i) + if h == g && j == i then size else 0
  }

  /** The bytes of one flow in a stretch of events, whatever resets it holds. */
  function Delivered(events: seq<Event>, g: Group, i: nat): nat {
    if events == [] then 0
    else
      var e := events[|events| - 1];
      Delivered(events[..|events| - 1], g, i) + if e.Received? && e.group == g && e.index == i then e.size else 0
  }

  /** The count is what was delivered in the stretch that follows the last reset. */
  lemma {:induction false} CountedSinceReset(before: seq<Event>, since: seq<Event>, g: Group, i: nat)
    requires before != [] ==> before[|before| - 1] == Reset
    requires Reset !in since
    ensures Counted(before + since, g, i) == Delivered(since, g, i)
  {
    if since == [] {
      assert before + since == before;
    } else {
      var rest := since[..|since| - 1];
      assert since[|since| - 1] in since;
      assert (before + since)[..|before + since| - 1] == before + rest;
      CountedSinceReset(before, rest, g, i);
    }
  }

  class Counters {
    const s1r1: array<Word>
    const s2r2: array<Word>
    const s3r1: array<Word>

    ghost predicate Valid() {
      && s1r1.Length == Flows(S1R1) && s2r2.Length == Flows(S2R2) && s3r1.Length == Flows(S3R1)
      && s1r1 != s2r2 && s1r1 != s3r1 && s2r2 != s3r1
    }

    function Of(g: Group): array<Word> {
      match g
      case S1R1 => s1r1
      case S2R2 => s2r2
      case S3R1 => s3r1
    }

    /** Every counter holds the 64-bit remainder of what its flow received. */
    ghost predicate Hold(events: seq<Event>)
      requires Valid()
      reads s1r1, s2r2, s3r1
    {
      forall g, i :: 0 <= i < Flows(g) ==> Of(g)[i] == Wrap(Counted(events, g, i))
    }

    constructor ()
      ensures Valid() && fresh(s1r1) && fresh(s2r2) && fresh(s3r1)
      ensures s1r1.Length == 10 && s2r2.Length == 20 && s3r1.Length == 10
      ensures Hold([])
    {
      s1r1, s2r2, s3r1 := new Word[10](_ => 0), new Word[20](_ => 0), new Word[10](_ => 0);
    }

    /** The three receive callbacks differ only in the vector they add to. */
    method TraceSink(g: Group, index: nat, size: nat)
      requires Valid() && Possible(Received(g, index, size))
      modifies Of(g)
      ensures Of(g)[..] == old(Of(g)[..])[index := Wrap(old(Of(g)[index]) + size)]
    {
      var a := Of(g);
      a[index] := Wrap(a[index] + size);
    }

    method InitializeCounters()
      requires Valid()
      modifies s1r1, s2r2, s3r1
      ensures forall g, i :: 0 <= i < Flows(g) ==> Of(g)[i] == 0
      ensures s1r1[..] == seq(10, _ => 0) && s2r2[..] == seq(20, _ => 0) && s3r1[..] == seq(10, _ => 0)
    {
      for i := 0 to 10
        invariant forall k :: 0 <= k < i ==> s1r1[k] == 0
      {
        s1r1[i] := 0;
      }
      for i := 0 to 20
        invariant forall k :: 0 <= k < 10 ==> s1r1[k] == 0
        invariant forall k :: 0 <= k < i ==> s2r2[k] == 0
      {
        s2r2[i] := 0;
      }
      for i := 0 to 10
        invariant forall k :: 0 <= k < 10 ==> s1r1[k] == 0
        invariant forall k :: 0 <= k < 20 ==> s2r2[k] == 0
        invariant forall k :: 0 <= k < i ==> s3r1[k] == 0
      {
        s3r1[i] := 0;
      }
    }

    method Handle(e: Event, ghost before: seq<Event>)
      requires Valid() && Possible(e) && Hold(before)
      modifies s1r1, s2r2, s3r1
      ensures Hold(before + [e])
    {
      hide Wrap;
      assert (before + [e])[..|before|] == before;
      match e {
        case Reset =>
          InitializeCounters();
          WordWraps(0);
        case Received(h, j, size) =>
          AddWrapped(Counted(before, h, j), size);
          ghost var was := Of(h)[..];
          TraceSink(h, j, size);
          assert forall i :: 0 <= i < Flows(h) ==> Of(h)[i] == Of(h)[..][i] && was[i] == Wrap(Counted(before, h, i));
      }
    }

    /** Any run of the simulation from the start of the program. */
    method Run(events: seq<Event>)
      requires Valid() && Hold([]) && forall e :: e in events ==> Possible(e)
      modifies s1r1, s2r2, s3r1
      ensures Hold(events)
    {
      for n := 0 to |events|
        invariant Hold(events[..n])
      {
        assert events[..n + 1] == events[..n] + [events[n]];
        Handle(events[n], events[..n]);
      }
      assert events[..|events|] == events;
    }

    /** The three indices, and the sums of the two bottlenecks. */
    method PrintFairness() returns (fairness: map<Group, Quotient>, throughT1: Word, toR1: Word)
      requires Valid()
      ensures forall g :: g in fairness && fairness[g] == Reported(Of(g)[..])
      ensures throughT1 == Wrap(Sum(s1r1[..]) + Sum(s2r2[..]))
      ensures toR1 == Wrap(Sum(s3r1[..]) + Sum(s1r1[..]))
    {
      hide Wrap, Reported, Sum;
      var sum1, squares1, f1 := GroupFairness(s1r1);
      var sum2, squares2, f2 := GroupFairness(s2r2);
      var sum3, squares3, f3 := GroupFairness(s3r1);
      fairness := map[S1R1 := f1, S2R2 := f2, S3R1 := f3];
      forall g
        ensures g in fairness && fairness[g] == Reported(Of(g)[..])
      {
        assert g == S1R1 || g == S2R2 || g == S3R1;
      }
      throughT1 := AddAll(0, s1r1);
      throughT1 := AddAll(throughT1, s2r2);
      toR1 := AddAll(0, s3r1);
      toR1 := AddAll(toR1, s1r1);
      WordWraps(0);
      AddWrapped(Sum(s1r1[..]), Sum(s2r2[..]));
      AddWrapped(Sum(s3r1[..]), Sum(s1r1[..]));
    }
  }

  method AddAll(start: Word, a: array<Word>) returns (sum: Word)
    ensures sum == Wrap(start + Sum(a[..]))
  {
    hide Wrap;
    sum := start;
    WordWraps(start);
    for i := 0 to a.Length
      invariant sum == Wrap(start + Sum(a[..i]))
    {
      assert a[..i + 1][..i] == a[..i];
      AddWrapped(start + Sum(a[..i]), a[i]);
      sum := Wrap(sum + a[i]);
    }
    assert a[..a.Length] == a[..];
  }

  /** What the flows of a group received since the last reset. */
  function Bytes(events: seq<Event>, g: Group): seq<nat> {
    seq(Flows(g), i requires 0 <= i < Flows(g) => Counted(events, g, i))
  }

  lemma FactorsWithin(n: nat, m: nat)
    requires n > 0 && Times(n, m) < 0x1_0000_0000
    ensures m < WORD
  {
    assert n * m >= m;
  }

  /** After a run in which no flow of the group received more than `m` bytes since the reset, with
      `m` times the number of flows below 2 to the power 32, the index printed is Jain's index of
      the bytes received. */
  lemma IndexAfterRun(c: Counters, events: seq<Event>, g: Group, m: nat)
    requires c.Valid() && c.Hold(events)
    requires Times(Flows(g), m) < 0x1_0000_0000
    requires forall i :: 0 <= i < Flows(g) ==> Counted(events, g, i) <= m
    ensures c.Of(g)[..] == Bytes(events, g)
    ensures Reported(c.Of(g)[..]) == Jain(Bytes(events, g))
    ensures var xs := Bytes(events, g);
            !AllZero(xs) ==> Jain(xs).Finite? && Ratio(1, Flows(g)) <= Jain(xs).value <= 1.0
  {
    hide Times, Reported, Jain, Exact;
    var xs := Bytes(events, g);
    FactorsWithin(Flows(g), m);
    forall i | 0 <= i < Flows(g)
      ensures c.Of(g)[i] == xs[i]
    {
      WordWraps(Counted(events, g, i));
    }
    SmallCountersAreExact(xs, m);
    JainBounds(xs);
  }
}
