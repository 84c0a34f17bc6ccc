/** Which edges a type has and in which order they are followed, told from the attributes, the
    registered types and the aggregations themselves. */
module ConfigEdges {
  import opened ConfigPaths
  import opened ConfigWalks
  import opened EntryOrder

  // ---------------------------------------------------------------------------------------
  // No edge more and none less
  // ---------------------------------------------------------------------------------------

  /** A pointer to anything but plain Object is followed, and a container. */
  predicate AttributeGives(r: Registry, a: Attribute, e: Edge) {
    match a.checker
    case PointerTo(u) => u != r.objectType && e == Edge(a.name, u)
    case ContainerOf(u) => e == Edge(a.name + "/[i]", u)
    case Other => false
  }

  /** A registered type that descends from `t` is followed. */
  predicate ChildGives(r: Registry, c: nat, t: nat, e: Edge)
    requires c < r.Size()
  {
    (c, t) in r.descends && e == Edge("$" + r.names[c], c)
  }

  /** An aggregation with `t` at one end is followed to the other. */
  predicate AggregateGives(r: Registry, item: (nat, nat), t: nat, e: Edge)
    requires item.0 < r.Size() && item.1 < r.Size()
  {
    || (item.0 == t && e == Edge("$" + r.names[item.1], item.1))
    || (item.1 == t && e == Edge("$" + r.names[item.0], item.0))
  }

  /** The attributes of `t` that are followed along `e`. */
  ghost function AttributesAlong(r: Registry, t: nat, n: nat, e: Edge): set<nat>
    requires t < |r.attributes| && n <= |r.attributes[t]|
  {
    set i: nat | i < n && AttributeGives(r, r.attributes[t][i], e)
  }

  /** The registered types that descend from `t` and are reached along `e`. */
  ghost function ChildrenAlong(r: Registry, t: nat, n: nat, e: Edge): set<nat>
    requires n <= r.Size()
  {
    set c: nat | c < n && ChildGives(r, c, t, e)
  }

  /** The aggregations of `t` that are followed along `e`. */
  ghost function AggregatesAlong(r: Registry, ags: seq<(nat, nat)>, t: nat, e: Edge): set<nat>
    requires ValidAggregates(r, ags)
  {
    set k: nat | k < |ags| && AggregateGives(r, ags[k], t, e)
  }

  lemma OneMore(es: seq<Edge>, one: seq<Edge>, e: Edge)
    requires |one| <= 1
    ensures multiset(es + one)[e] == multiset(es)[e] + if one == [e] then 1 else 0
  {
    if |one| == 1 {
      assert one == [one[0]];
    }
  }

  lemma OneAttribute(r: Registry, a: Attribute, e: Edge)
    ensures |AttributeEdge(r, a)| <= 1
    ensures AttributeEdge(r, a) == [e] <==> AttributeGives(r, a, e)
  {
  }

  lemma {:induction false} AttributeCount(r: Registry, t: nat, n: nat, e: Edge)
    requires t < |r.attributes| && n <= |r.attributes[t]|
    ensures multiset(AttributeEdges(r, t, n))[e] == |AttributesAlong(r, t, n, e)|
  {
    hide AttributeGives, AttributeEdge;
    if n > 0 {
      var m := n - 1;
      AttributeCount(r, t, m, e);
      OneAttribute(r, r.attributes[t][m], e);
      OneMore(AttributeEdges(r, t, m), AttributeEdge(r, r.attributes[t][m]), e);
      var gives := AttributeGives(r, r.attributes[t][m], e);
      var before := AttributesAlong(r, t, m, e);
      assert AttributesAlong(r, t, n, e) == if gives then before + {m} else before;
    }
  }

  lemma {:induction false} ChildCount(r: Registry, t: nat, n: nat, e: Edge)
    requires n <= r.Size()
    ensures multiset(ChildEdges(r, t, n))[e] == |ChildrenAlong(r, t, n, e)|
  {
    if n > 0 {
      var m := n - 1;
      ChildCount(r, t, m, e);
      var one := if (m, t) in r.descends then [Edge("$" + r.names[m], m)] else [];
      assert ChildEdges(r, t, n) == ChildEdges(r, t, m) + one;
      hide ChildEdges;
      OneMore(ChildEdges(r, t, m), one, e);
      ChildrenStep(r, t, m, e);
    }
  }

  lemma ChildrenStep(r: Registry, t: nat, m: nat, e: Edge)
    requires m < r.Size()
    ensures |ChildrenAlong(r, t, m + 1, e)| == |ChildrenAlong(r, t, m, e)| + if ChildGives(r, m, t, e) then 1 else 0
  {
    hide ChildGives;
    var a, b := ChildrenAlong(r, t, m, e), ChildrenAlong(r, t, m + 1, e);
    if ChildGives(r, m, t, e) {
      assert b == a + {m};
    } else {
      assert b == a;
    }
  }

  function AggregateEdge(r: Registry, item: (nat, nat), t: nat): (one: seq<Edge>)
    requires item.0 < r.Size() && item.1 < r.Size()
    ensures |one| <= 1
  {
    if item.1 == t then [Edge("$" + r.names[item.0], item.0)]
    else if item.0 == t then [Edge("$" + r.names[item.1], item.1)]
    else []
  }

  lemma OneAggregate(r: Registry, item: (nat, nat), t: nat, e: Edge)
    requires item.0 < r.Size() && item.1 < r.Size()
    ensures AggregateEdge(r, item, t) == [e] <==> AggregateGives(r, item, t, e)
  {
  }

  lemma {:induction false} AggregateCount(r: Registry, ags: seq<(nat, nat)>, t: nat, e: Edge)
    requires ValidAggregates(r, ags)
    ensures multiset(AggregateEdges(r, ags, t))[e] == |AggregatesAlong(r, ags, t, e)|
  {
    if ags != [] {
      var m := |ags| - 1;
      var before, item := ags[..m], ags[m];
      AggregateCount(r, before, t, e);
      assert AggregateEdges(r, ags, t) == AggregateEdges(r, before, t) + AggregateEdge(r, item, t);
      hide AggregateEdges, AggregateEdge, AggregateGives, AggregatesAlong;
      OneAggregate(r, item, t, e);
      OneMore(AggregateEdges(r, before, t), AggregateEdge(r, item, t), e);
      AggregatesStep(r, ags, t, e);
    }
  }

  lemma AggregatesStep(r: Registry, ags: seq<(nat, nat)>, t: nat, e: Edge)
    requires ValidAggregates(r, ags) && ags != []
    ensures var m := |ags| - 1;
            |AggregatesAlong(r, ags, t, e)|
            == |AggregatesAlong(r, ags[..m], t, e)| + if AggregateGives(r, ags[m], t, e) then 1 else 0
  {
    hide AggregateGives;
    var m := |ags| - 1;
    var a, b := AggregatesAlong(r, ags[..m], t, e), AggregatesAlong(r, ags, t, e);
    if AggregateGives(r, ags[m], t, e) {
      assert b == a + {m};
    } else {
      assert b == a;
    }
  }

  /** An edge is followed once for each attribute, each registered descendant, and each aggregation
      that gives it, and for nothing else. */
  lemma EdgesAre(g: Graph, t: nat, e: Edge)
    requires g.Valid() && t < g.registry.Size()
    ensures multiset(g.From(t))[e]
            == |AttributesAlong(g.registry, t, |g.registry.attributes[t]|, e)|
               + |ChildrenAlong(g.registry, t, g.registry.Size(), e)|
               + |AggregatesAlong(g.registry, g.aggregates, t, e)|
  {
    hide AttributesAlong, ChildrenAlong, AggregatesAlong, AttributeEdges, ChildEdges, AggregateEdges;
    AttributeCount(g.registry, t, |g.registry.attributes[t]|, e);
    ChildCount(g.registry, t, g.registry.Size(), e);
    AggregateCount(g.registry, g.aggregates, t, e);
  }

  // ---------------------------------------------------------------------------------------
  // The order
  // ---------------------------------------------------------------------------------------

  ghost predicate At(es: seq<Edge>, k: nat, e: Edge) {
    k < |es| && es[k] == e
  }

  /** The place where the edge of attribute `i` is followed. */
  function AttributePlace(g: Graph, t: nat, i: nat): nat
    requires g.Valid() && t < g.registry.Size() && i <= |g.registry.attributes[t]|
  {
    |AttributeEdges(g.registry, t, i)|
  }

  /** The place where the edge to descendant `c` is followed. */
  function ChildPlace(g: Graph, t: nat, c: nat): nat
    requires g.Valid() && t < g.registry.Size() && c <= g.registry.Size()
  {
    AttributePlace(g, t, |g.registry.attributes[t]|) + |ChildEdges(g.registry, t, c)|
  }

  /** The place where aggregation `k` is followed. */
  function AggregatePlace(g: Graph, t: nat, k: nat): nat
    requires g.Valid() && t < g.registry.Size() && k <= |g.aggregates|
  {
    ChildPlace(g, t, g.registry.Size()) + |AggregateEdges(g.registry, g.aggregates[..k], t)|
  }

  lemma {:induction false} AttributePrefix(r: Registry, t: nat, i: nat, n: nat)
    requires t < |r.attributes| && i <= n <= |r.attributes[t]|
    ensures AttributeEdges(r, t, i) <= AttributeEdges(r, t, n)
    decreases n
  {
    hide AttributeEdge;
    if i < n {
      AttributePrefix(r, t, i, n - 1);
    }
  }

  lemma {:induction false} ChildPrefix(r: Registry, t: nat, c: nat, n: nat)
    requires c <= n <= r.Size()
    ensures ChildEdges(r, t, c) <= ChildEdges(r, t, n)
    decreases n
  {
    if c < n {
      ChildPrefix(r, t, c, n - 1);
    }
  }

  /** Each pointer attribute not to plain Object is followed to what it points to, and each container
      attribute to its items, in the order of the attributes. */
  lemma AttributeFollowed(g: Graph, t: nat, i: nat)
    requires g.Valid() && t < g.registry.Size() && i < |g.registry.attributes[t]|
    ensures var a := g.registry.attributes[t][i];
            && (a.checker.PointerTo? && a.checker.pointee != g.registry.objectType ==>
                  At(g.From(t), AttributePlace(g, t, i), Edge(a.name, a.checker.pointee)))
            && (a.checker.ContainerOf? ==>
                  At(g.From(t), AttributePlace(g, t, i), Edge(a.name + "/[i]", a.checker.item)))
            && (a.checker.ContainerOf? || (a.checker.PointerTo? && a.checker.pointee != g.registry.objectType) ==>
                  AttributePlace(g, t, i) < AttributePlace(g, t, i + 1))
  {
    var r, n := g.registry, |g.registry.attributes[t]|;
    AttributePrefix(r, t, i + 1, n);
    var part := AttributeEdges(r, t, i + 1);
    assert part == AttributeEdges(r, t, i) + AttributeEdge(r, r.attributes[t][i]);
    hide AttributeEdges, ChildEdges, AggregateEdges;
    assert forall k :: 0 <= k < |part| ==> g.From(t)[k] == part[k];
  }

  /** Each registered descendant is followed, in the order of registration and after the attributes. */
  lemma ChildFollowed(g: Graph, t: nat, c: nat)
    requires g.Valid() && t < g.registry.Size() && c < g.registry.Size() && (c, t) in g.registry.descends
    ensures At(g.From(t), ChildPlace(g, t, c), Edge("$" + g.registry.names[c], c))
    ensures ChildPlace(g, t, c) < ChildPlace(g, t, c + 1)
  {
    var r := g.registry;
    var before := AttributeEdges(r, t, |r.attributes[t]|);
    ChildPrefix(r, t, c + 1, r.Size());
    var part := ChildEdges(r, t, c + 1);
    assert part == ChildEdges(r, t, c) + [Edge("$" + r.names[c], c)];
    hide AttributeEdges, ChildEdges, AggregateEdges;
    assert forall k :: 0 <= k < |part| ==> g.From(t)[|before| + k] == part[k];
  }

  /** Each aggregation with the type at an end is followed to the other end, in the order in which
      they were recorded and after the descendants. */
  lemma AggregateFollowed(g: Graph, t: nat, k: nat)
    requires g.Valid() && t < g.registry.Size() && k < |g.aggregates|
    ensures var item := g.aggregates[k];
            && (item.0 == t ==> At(g.From(t), AggregatePlace(g, t, k), Edge("$" + g.registry.names[item.1], item.1)))
            && (item.1 == t ==> At(g.From(t), AggregatePlace(g, t, k), Edge("$" + g.registry.names[item.0], item.0)))
            && (item.0 == t || item.1 == t ==> AggregatePlace(g, t, k) < AggregatePlace(g, t, k + 1))
  {
    var r, ags := g.registry, g.aggregates;
    var before := AttributeEdges(r, t, |r.attributes[t]|) + ChildEdges(r, t, r.Size());
    AggregatePrefix(r, ags, t, k + 1);
    assert ags[..k + 1][..k] == ags[..k];
    var part := AggregateEdges(r, ags[..k + 1], t);
    assert ags[k].0 == t || ags[k].1 == t ==> |part| == |AggregateEdges(r, ags[..k], t)| + 1;
    hide AttributeEdges, ChildEdges, AggregateEdges;
    assert forall n :: 0 <= n < |part| ==> g.From(t)[|before| + n] == part[n];
  }

  /** A later attribute, descendant or aggregation never has an earlier place. */
  lemma PlacesAscend(g: Graph, t: nat)
    requires g.Valid() && t < g.registry.Size()
    ensures forall i, j :: 0 <= i <= j <= |g.registry.attributes[t]| ==>
              AttributePlace(g, t, i) <= AttributePlace(g, t, j)
    ensures forall c, d :: 0 <= c <= d <= g.registry.Size() ==> ChildPlace(g, t, c) <= ChildPlace(g, t, d)
    ensures forall k, l :: 0 <= k <= l <= |g.aggregates| ==> AggregatePlace(g, t, k) <= AggregatePlace(g, t, l)
    ensures AttributePlace(g, t, |g.registry.attributes[t]|) == ChildPlace(g, t, 0)
    ensures ChildPlace(g, t, g.registry.Size()) == AggregatePlace(g, t, 0)
  {
    forall i, j | 0 <= i <= j <= |g.registry.attributes[t]|
      ensures AttributePlace(g, t, i) <= AttributePlace(g, t, j)
    {
      AttributePrefix(g.registry, t, i, j);
    }
    forall c, d | 0 <= c <= d <= g.registry.Size()
      ensures ChildPlace(g, t, c) <= ChildPlace(g, t, d)
    {
      ChildPrefix(g.registry, t, c, d);
    }
    forall k, l | 0 <= k <= l <= |g.aggregates|
      ensures AggregatePlace(g, t, k) <= AggregatePlace(g, t, l)
    {
      AggregatePrefix(g.registry, g.aggregates[..l], t, k);
      assert g.aggregates[..l][..k] == g.aggregates[..k];
    }
  }

  // ---------------------------------------------------------------------------------------
  // Texts
  // ---------------------------------------------------------------------------------------

  /** A path reads as its segments in order, a slash before each. */
  lemma {:induction false} PathReads(p: seq<string>, q: seq<string>)
    ensures PathText([]) == ""
    ensures PathText(p + q) == PathText(p) + PathText(q)
    decreases |q|
  {
    if q == [] {
      assert p + q == p;
    } else {
      var n := |q| - 1;
      assert (p + q)[..|p + q| - 1] == p + q[..n];
      PathReads(p, q[..n]);
      assert PathText(p) + PathText(q[..n]) + "/" + q[n] == PathText(p) + (PathText(q[..n]) + "/" + q[n]);
    }
  }

  lemma OneSegment(segment: string)
    ensures PathText([segment]) == "/" + segment
  {
    assert [segment][..0] == [];
    assert "" + "/" + segment == "/" + segment;
  }

  /** Gathering from a type records each of its registered descendants under its name. */
  lemma DescendantRecorded(g: Graph, t: nat, c: nat)
    requires g.Valid() && t < g.registry.Size() && c < g.registry.Size() && c != t
    requires (c, t) in g.registry.descends
    ensures Entry(c, "/$" + g.registry.names[c]) in Gathered(g.registry, g.aggregates, t, [], [])
  {
    hide Gathered, Edges, PathText, Walks, EntryOf, Simple, ChildPlace;
    var segment, k := "$" + g.registry.names[c], ChildPlace(g, t, c);
    ChildFollowed(g, t, c);
    OneEdgeWalk(g, t, k);
    WalksAre(g, t, [], [k]);
    GatheredIsWalks(g, t, [], []);
    OneSegment(segment);
    assert "/" + segment == "/$" + g.registry.names[c];
    var ws, out := Walks(g, t, []), Gathered(g.registry, g.aggregates, t, [], []);
    var i :| 0 <= i < |ws| && ws[i] == [k];
    assert out[i] == RecordOf(g, t, [k]);
  }

  /** The paths of a list are those of its first part followed by those of the rest. */
  lemma {:induction false} PathsInOrder(a: seq<Entry>, b: seq<Entry>, tid: nat)
    ensures PathsOf(a + b, tid) == PathsOf(a, tid) + PathsOf(b, tid)
  {
    if b == [] {
      assert a + b == a;
    } else {
      assert (a + b)[..|a + b| - 1] == a + b[..|b| - 1];
      PathsInOrder(a, b[..|b| - 1], tid);
    }
  }
}
