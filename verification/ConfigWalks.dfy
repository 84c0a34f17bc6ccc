/** What the gathered configuration paths are, said without the search: one entry for every
    walk that repeats no type. A walk is told by the number of the edge it takes at each
    type, so that two edges with the same label and target count as two. */
module ConfigWalks {
  import opened ConfigPaths
  import opened EntryOrder

  /** Types, attributes and aggregations, fixed for one call of `Gather`. */
  datatype Graph = Graph(registry: Registry, aggregates: seq<(nat, nat)>)
  {
    ghost predicate Valid() {
      registry.Valid() && ValidAggregates(registry, aggregates)
    }

    function From(t: nat): (es: seq<Edge>)
      requires Valid() && t < registry.Size()
      ensures InRange(registry, es)
    {
      EdgesInRange(registry, aggregates, t);
      Edges(registry, aggregates, t)
    }
  }

  ghost predicate IsWalk(g: Graph, t: nat, w: seq<nat>)
    requires g.Valid() && t < g.registry.Size()
    decreases |w|
  {
    w == [] || (w[0] < |g.From(t)| && IsWalk(g, g.From(t)[w[0]].target, w[1..]))
  }

  /** The types a walk goes through, first and last included. */
  ghost function Types(g: Graph, t: nat, w: seq<nat>): (ts: seq<nat>)
    requires g.Valid() && t < g.registry.Size() && IsWalk(g, t, w)
    ensures |ts| == |w| + 1 && ts[0] == t
    decreases |w|
  {
    if w == [] then [t] else [t] + Types(g, g.From(t)[w[0]].target, w[1..])
  }

  ghost function Segments(g: Graph, t: nat, w: seq<nat>): seq<string>
    requires g.Valid() && t < g.registry.Size() && IsWalk(g, t, w)
    decreases |w|
  {
    if w == [] then []
    else [g.From(t)[w[0]].segment] + Segments(g, g.From(t)[w[0]].target, w[1..])
  }

  ghost predicate Distinct(ts: seq<nat>) {
    forall i, j :: 0 <= i < j < |ts| ==> ts[i] != ts[j]
  }

  ghost predicate Avoids(ts: seq<nat>, visited: seq<nat>) {
    forall i :: 0 <= i < |ts| ==> ts[i] !in visited
  }

  /** A walk from `t` that repeats no type and keeps off the types already on the stack. */
  ghost predicate Simple(g: Graph, t: nat, w: seq<nat>, visited: seq<nat>)
    requires g.Valid() && t < g.registry.Size()
  {
    IsWalk(g, t, w) && Distinct(Types(g, t, w)) && Avoids(Types(g, t, w), visited)
  }

  lemma SimpleStep(g: Graph, t: nat, w: seq<nat>, visited: seq<nat>)
    requires g.Valid() && t < g.registry.Size() && w != []
    ensures Simple(g, t, w, visited)
            <==> t !in visited && w[0] < |g.From(t)| && Simple(g, g.From(t)[w[0]].target, w[1..], visited + [t])
  {
    if IsWalk(g, t, w) {
      var u := g.From(t)[w[0]].target;
      var ts, us := Types(g, t, w), Types(g, u, w[1..]);
      assert ts == [t] + us;
      if Distinct(ts) && Avoids(ts, visited) {
        assert forall i :: 0 <= i < |us| ==> us[i] == ts[i + 1] && ts[0] != ts[i + 1];
      }
      if Distinct(us) && Avoids(us, visited + [t]) && t !in visited {
        assert forall i :: 1 <= i < |ts| ==> ts[i] == us[i - 1] && ts[i] !in visited + [t];
      }
    }
  }

  // ---------------------------------------------------------------------------------------
  // The walks in the order of the search
  // ---------------------------------------------------------------------------------------

  ghost function Prepend(k: nat, ws: seq<seq<nat>>): (r: seq<seq<nat>>)
    ensures |r| == |ws|
    ensures forall i :: 0 <= i < |ws| ==> r[i] == [k] + ws[i]
  {
    seq(|ws|, i requires 0 <= i < |ws| => [k] + ws[i])
  }

  ghost function Walks(g: Graph, t: nat, visited: seq<nat>): seq<seq<nat>>
    requires g.Valid() && t < g.registry.Size()
    decreases |Unvisited(g.registry, visited)|, 1, 0
  {
    if t in visited then []
    else
      UnvisitedShrinks(g.registry, visited, t);
      [[]] + WalksAlong(g, g.From(t), visited + [t])
  }

  ghost function WalksAlong(g: Graph, es: seq<Edge>, visited: seq<nat>): seq<seq<nat>>
    requires g.Valid() && InRange(g.registry, es)
    decreases |Unvisited(g.registry, visited)|, 2, |es|
  {
    if es == [] then []
    else WalksAlong(g, es[..|es| - 1], visited)
         + Prepend(|es| - 1, Walks(g, es[|es| - 1].target, visited))
  }

  lemma {:induction false} WalksAre(g: Graph, t: nat, visited: seq<nat>, w: seq<nat>)
    requires g.Valid() && t < g.registry.Size()
    ensures w in Walks(g, t, visited) <==> Simple(g, t, w, visited)
    decreases |Unvisited(g.registry, visited)|, 1, 0
  {
    if t in visited {
      if IsWalk(g, t, w) {
        assert Types(g, t, w)[0] == t;
      }
    } else {
      UnvisitedShrinks(g.registry, visited, t);
      var along := WalksAlong(g, g.From(t), visited + [t]);
      assert Walks(g, t, visited) == [[]] + along;
      if w == [] {
        assert Walks(g, t, visited)[0] == w;
        assert Types(g, t, w) == [t];
      } else {
        assert w in [[]] + along <==> w in along;
        WalksAlongAre(g, g.From(t), visited + [t], w);
        SimpleStep(g, t, w, visited);
      }
    }
  }

  lemma {:induction false} WalksAlongAre(g: Graph, es: seq<Edge>, visited: seq<nat>, w: seq<nat>)
    requires g.Valid() && InRange(g.registry, es)
    ensures w in WalksAlong(g, es, visited)
            <==> w != [] && w[0] < |es| && Simple(g, es[w[0]].target, w[1..], visited)
    decreases |Unvisited(g.registry, visited)|, 2, |es|
  {
    if es != [] {
      var k := |es| - 1;
      WalksAlongAre(g, es[..k], visited, w);
      var ws := Walks(g, es[k].target, visited);
      InPrepend(k, ws, w);
      if w != [] {
        WalksAre(g, es[k].target, visited, w[1..]);
      }
    }
  }

  lemma InPrepend(k: nat, ws: seq<seq<nat>>, w: seq<nat>)
    ensures w in Prepend(k, ws) <==> w != [] && w[0] == k && w[1..] in ws
  {
    var r := Prepend(k, ws);
    if w in r {
      var i :| 0 <= i < |r| && r[i] == w;
      assert w[1..] == ws[i];
    }
    if w != [] && w[0] == k && w[1..] in ws {
      var i :| 0 <= i < |ws| && ws[i] == w[1..];
      assert r[i] == w;
    }
  }

  /** Numbering of the edges taken, compared like words. */
  ghost predicate Before(a: seq<nat>, b: seq<nat>)
    decreases |a|
  {
    b != [] && (a == [] || a[0] < b[0] || (a[0] == b[0] && Before(a[1..], b[1..])))
  }

  lemma {:induction false} NotBeforeItself(a: seq<nat>)
    ensures !Before(a, a)
    decreases |a|
  {
    if a != [] {
      NotBeforeItself(a[1..]);
    }
  }

  ghost predicate Ordered(ws: seq<seq<nat>>) {
    forall i, j :: 0 <= i < j < |ws| ==> Before(ws[i], ws[j])
  }

  lemma {:induction false} WalksOrdered(g: Graph, t: nat, visited: seq<nat>)
    requires g.Valid() && t < g.registry.Size()
    ensures Ordered(Walks(g, t, visited))
    decreases |Unvisited(g.registry, visited)|, 1, 0
  {
    if t !in visited {
      UnvisitedShrinks(g.registry, visited, t);
      WalksAlongOrdered(g, g.From(t), visited + [t]);
    }
  }

  lemma {:induction false} WalksAlongOrdered(g: Graph, es: seq<Edge>, visited: seq<nat>)
    requires g.Valid() && InRange(g.registry, es)
    ensures Ordered(WalksAlong(g, es, visited))
    ensures forall i :: 0 <= i < |WalksAlong(g, es, visited)| ==>
              WalksAlong(g, es, visited)[i] != [] && WalksAlong(g, es, visited)[i][0] < |es|
    decreases |Unvisited(g.registry, visited)|, 2, |es|
  {
    if es != [] {
      var k := |es| - 1;
      WalksAlongOrdered(g, es[..k], visited);
      WalksOrdered(g, es[k].target, visited);
      PrependOrdered(k, Walks(g, es[k].target, visited));
    }
  }

  lemma PrependOrdered(k: nat, ws: seq<seq<nat>>)
    requires Ordered(ws)
    ensures Ordered(Prepend(k, ws))
  {
    var r := Prepend(k, ws);
    forall i, j | 0 <= i < j < |r|
      ensures Before(r[i], r[j])
    {
      assert r[i][1..] == ws[i] && r[j][1..] == ws[j];
    }
  }

  // ---------------------------------------------------------------------------------------
  // The entries are those of the walks
  // ---------------------------------------------------------------------------------------

  /** The entry recorded at the end of a walk that starts with the path `path` on the stack. */
  ghost function EntryOf(g: Graph, t: nat, w: seq<nat>, path: seq<string>): Entry
    requires g.Valid() && t < g.registry.Size()
  {
    if IsWalk(g, t, w) then Entry(Types(g, t, w)[|w|], PathText(path + Segments(g, t, w)))
    else Entry(0, "")
  }

  ghost predicate Describes(g: Graph, t: nat, ws: seq<seq<nat>>, path: seq<string>, entries: seq<Entry>)
    requires g.Valid() && t < g.registry.Size()
  {
    |entries| == |ws| && forall i :: 0 <= i < |ws| ==> entries[i] == EntryOf(g, t, ws[i], path)
  }

  lemma {:induction false} GatheredIsWalks(g: Graph, t: nat, path: seq<string>, visited: seq<nat>)
    requires g.Valid() && t < g.registry.Size()
    ensures Describes(g, t, Walks(g, t, visited), path, Gathered(g.registry, g.aggregates, t, path, visited))
    decreases |Unvisited(g.registry, visited)|, 1, 0
  {
    if t !in visited {
      UnvisitedShrinks(g.registry, visited, t);
      var es := g.From(t);
      AlongIsWalks(g, t, es, path, visited + [t]);
      assert EntryOf(g, t, [], path) == Entry(t, PathText(path)) by {
        assert path + [] == path;
      }
    }
  }

  lemma {:induction false} AlongIsWalks(g: Graph, t: nat, es: seq<Edge>, path: seq<string>, visited: seq<nat>)
    requires g.Valid() && t < g.registry.Size()
    requires |es| <= |g.From(t)| && es == g.From(t)[..|es|]
    ensures Describes(g, t, WalksAlong(g, es, visited), path,
                      GatheredAlong(g.registry, g.aggregates, es, path, visited))
    decreases |Unvisited(g.registry, visited)|, 2, |es|
  {
    hide Edges, EntryOf, Walks, Gathered, PathText, Describes, Prepend;
    if es == [] {
      NothingDescribed(g, t, path);
    } else {
      var k := |es| - 1;
      var e := es[k];
      AlongIsWalks(g, t, es[..k], path, visited);
      GatheredIsWalks(g, e.target, path + [e.segment], visited);
      PrependDescribes(g, t, k, path, visited);
      DescribesBoth(g, t, path, WalksAlong(g, es[..k], visited),
                    GatheredAlong(g.registry, g.aggregates, es[..k], path, visited),
                    Prepend(k, Walks(g, e.target, visited)),
                    Gathered(g.registry, g.aggregates, e.target, path + [e.segment], visited));
    }
  }

  lemma NothingDescribed(g: Graph, t: nat, path: seq<string>)
    requires g.Valid() && t < g.registry.Size()
    ensures Describes(g, t, [], path, [])
  {
  }

  lemma DescribesBoth(g: Graph, t: nat, path: seq<string>, vs: seq<seq<nat>>, xs: seq<Entry>,
                      ws: seq<seq<nat>>, ys: seq<Entry>)
    requires g.Valid() && t < g.registry.Size()
    requires Describes(g, t, vs, path, xs) && Describes(g, t, ws, path, ys)
    ensures Describes(g, t, vs + ws, path, xs + ys)
  {
    hide EntryOf;
  }

  lemma PrependDescribes(g: Graph, t: nat, k: nat, path: seq<string>, visited: seq<nat>)
    requires g.Valid() && t < g.registry.Size() && k < |g.From(t)|
    requires var e := g.From(t)[k];
             Describes(g, e.target, Walks(g, e.target, visited), path + [e.segment],
                       Gathered(g.registry, g.aggregates, e.target, path + [e.segment], visited))
    ensures var e := g.From(t)[k];
            Describes(g, t, Prepend(k, Walks(g, e.target, visited)), path,
                      Gathered(g.registry, g.aggregates, e.target, path + [e.segment], visited))
  {
    hide Edges, EntryOf, Walks, Gathered, PathText;
    var e := g.From(t)[k];
    var ws := Walks(g, e.target, visited);
    forall i | 0 <= i < |ws|
      ensures EntryOf(g, t, [k] + ws[i], path) == EntryOf(g, e.target, ws[i], path + [e.segment])
    {
      assert ws[i] in ws;
      WalksAre(g, e.target, visited, ws[i]);
      EntryStep(g, t, k, ws[i], path);
    }
  }

  lemma EntryStep(g: Graph, t: nat, k: nat, w: seq<nat>, path: seq<string>)
    requires g.Valid() && t < g.registry.Size() && k < |g.From(t)|
    requires IsWalk(g, g.From(t)[k].target, w)
    ensures EntryOf(g, t, [k] + w, path) == EntryOf(g, g.From(t)[k].target, w, path + [g.From(t)[k].segment])
  {
    var v := [k] + w;
    assert v[1..] == w;
    var e := g.From(t)[k];
    assert Types(g, t, v) == [t] + Types(g, e.target, w);
    assert path + Segments(g, t, v) == path + [e.segment] + Segments(g, e.target, w);
  }

  /** Soundness, completeness and multiplicity at once. Starting with empty stacks, the
      entries gathered for a root are, one for one and in this order, those of a list of
      walks that has every walk that repeats no type, no other walk, and none twice. */
  lemma GatherMeaning(g: Graph, root: nat)
    requires g.Valid() && root < g.registry.Size()
    ensures var ws := Walks(g, root, []);
            && Describes(g, root, ws, [], Gathered(g.registry, g.aggregates, root, [], []))
            && (forall w :: w in ws <==> IsWalk(g, root, w) && Distinct(Types(g, root, w)))
            && (forall i, j :: 0 <= i < j < |ws| ==> ws[i] != ws[j] && Before(ws[i], ws[j]))
  {
    var ws := Walks(g, root, []);
    GatheredIsWalks(g, root, [], []);
    forall w
      ensures w in ws <==> IsWalk(g, root, w) && Distinct(Types(g, root, w))
    {
      WalksAre(g, root, [], w);
    }
    WalksOrdered(g, root, []);
    forall i, j | 0 <= i < j < |ws|
      ensures ws[i] != ws[j]
    {
      NotBeforeItself(ws[i]);
    }
  }

  /** Every call ends, and no recorded path is longer than the number of types. */
  lemma {:induction false} SimpleIsShort(g: Graph, t: nat, w: seq<nat>, visited: seq<nat>)
    requires g.Valid() && t < g.registry.Size() && Simple(g, t, w, visited)
    ensures |w| < |Unvisited(g.registry, visited)|
    decreases |w|
  {
    assert Types(g, t, w)[0] == t;
    UnvisitedShrinks(g.registry, visited, t);
    if w != [] {
      SimpleStep(g, t, w, visited);
      SimpleIsShort(g, g.From(t)[w[0]].target, w[1..], visited + [t]);
    }
  }

  /** The paths `Get` returns for a type are those of the walks that end there. */
  lemma {:induction false} GetMeaning(output: seq<Entry>, tid: nat, path: string)
    ensures multiset(PathsOf(output, tid))[path] == multiset(output)[Entry(tid, path)]
  {
    if output != [] {
      var k := |output| - 1;
      assert output == output[..k] + [output[k]];
      GetMeaning(output[..k], tid, path);
    }
  }

  // ---------------------------------------------------------------------------------------
  // No deduplication
  // ---------------------------------------------------------------------------------------

  ghost predicate Repeats(out: seq<Entry>) {
    exists i, j :: 0 <= i < j < |out| && out[i] == out[j]
  }

  /** The entry a walk is recorded as. */
  ghost function RecordOf(g: Graph, root: nat, w: seq<nat>): Entry
    requires g.Valid() && root < g.registry.Size() && IsWalk(g, root, w)
  {
    EntryOf(g, root, w, [])
  }

  /** The list holds an entry twice exactly when two different walks that repeat no type end at
      one type with one text: nothing is made unique afterwards. */
  lemma {:induction false} RepeatsIff(g: Graph, root: nat)
    requires g.Valid() && root < g.registry.Size()
    ensures Repeats(Gathered(g.registry, g.aggregates, root, [], []))
            <==> exists v, w :: v != w && Simple(g, root, v, []) && Simple(g, root, w, [])
                                && RecordOf(g, root, v) == RecordOf(g, root, w)
  {
    hide Gathered, Walks, EntryOf, Types, Segments, Repeats, RecordOf;
    var out, ws := Gathered(g.registry, g.aggregates, root, [], []), Walks(g, root, []);
    if v, w :| v != w && Simple(g, root, v, []) && Simple(g, root, w, [])
               && RecordOf(g, root, v) == RecordOf(g, root, w) {
      WalksRepeat(g, root, v, w);
    }
    if Repeats(out) {
      var v, w := RepeatedWalks(g, root);
    }
  }

  lemma {:induction false} WalksRepeat(g: Graph, root: nat, v: seq<nat>, w: seq<nat>)
    requires g.Valid() && root < g.registry.Size()
    requires v != w && Simple(g, root, v, []) && Simple(g, root, w, []) && RecordOf(g, root, v) == RecordOf(g, root, w)
    ensures Repeats(Gathered(g.registry, g.aggregates, root, [], []))
  {
    hide Gathered, Walks, EntryOf, Types, Segments;
    var out, ws := Gathered(g.registry, g.aggregates, root, [], []), Walks(g, root, []);
    GatheredIsWalks(g, root, [], []);
    WalksAre(g, root, [], v);
    WalksAre(g, root, [], w);
    var i :| 0 <= i < |ws| && ws[i] == v;
    var j :| 0 <= j < |ws| && ws[j] == w;
    assert if i < j then out[i] == out[j] else out[j] == out[i];
  }

  lemma {:induction false} RepeatedWalks(g: Graph, root: nat) returns (v: seq<nat>, w: seq<nat>)
    requires g.Valid() && root < g.registry.Size()
    requires Repeats(Gathered(g.registry, g.aggregates, root, [], []))
    ensures v != w && Simple(g, root, v, []) && Simple(g, root, w, []) && RecordOf(g, root, v) == RecordOf(g, root, w)
  {
    hide Gathered, Walks, EntryOf, Types, Segments;
    var out, ws := Gathered(g.registry, g.aggregates, root, [], []), Walks(g, root, []);
    var i, j :| 0 <= i < j < |out| && out[i] == out[j];
    GatherMeaning(g, root);
    v, w := ws[i], ws[j];
    WalksAre(g, root, [], v);
    WalksAre(g, root, [], w);
  }

  /** The list `Uniquefy` makes and gives up would have had none. */
  lemma UniqueHasNoRepeats(u: seq<Entry>)
    requires StrictlyAscending(u)
    ensures !Repeats(u)
  {
    if i, j :| 0 <= i < j < |u| && u[i] == u[j] {
      LessOrder(u[i], u[j], u[j]);
    }
  }

  lemma OneEdgeWalk(g: Graph, a: nat, m: nat)
    requires g.Valid() && a < g.registry.Size()
    requires m < |g.From(a)| && g.From(a)[m].target != a
    ensures Simple(g, a, [m], [])
    ensures RecordOf(g, a, [m]) == Entry(g.From(a)[m].target, PathText([g.From(a)[m].segment]))
  {
    hide Edges, PathText;
    var w, e := [m], g.From(a)[m];
    assert w[1..] == [];
    assert IsWalk(g, e.target, []) && Types(g, e.target, []) == [e.target] && Segments(g, e.target, []) == [];
    var ts := Types(g, a, w);
    assert ts == [a, e.target];
    assert Segments(g, a, w) == [e.segment];
    assert [] + [e.segment] == [e.segment];
  }

  /** Two edges that agree lead to repeated entries. */
  lemma EqualEdgesRepeat(g: Graph, a: nat, m: nat, n: nat)
    requires g.Valid() && a < g.registry.Size()
    requires m < n < |g.From(a)| && g.From(a)[m] == g.From(a)[n] && g.From(a)[m].target != a
    ensures Repeats(Gathered(g.registry, g.aggregates, a, [], []))
  {
    hide Edges, Gathered, Repeats, Simple, Types, Segments, PathText, EntryOf;
    OneEdgeWalk(g, a, m);
    OneEdgeWalk(g, a, n);
    var v, w := [m], [n];
    assert v[0] != w[0];
    RepeatsIff(g, a);
  }

  predicate Joins(item: (nat, nat), a: nat, b: nat) {
    item == (a, b) || item == (b, a)
  }

  /** An aggregation registered twice, in either direction, is recorded twice; the program
      registers one pair of types twice. */
  lemma RegisteredTwiceRecordedTwice(g: Graph, a: nat, b: nat, i: nat, j: nat)
    requires g.Valid() && a < g.registry.Size() && b < g.registry.Size() && a != b
    requires i < j < |g.aggregates| && Joins(g.aggregates[i], a, b) && Joins(g.aggregates[j], a, b)
    ensures Repeats(Gathered(g.registry, g.aggregates, a, [], []))
  {
    hide Gathered, Repeats, AttributeEdges, ChildEdges, AggregateEdges;
    var r, ags := g.registry, g.aggregates;
    var before := AttributeEdges(r, a, |r.attributes[a]|) + ChildEdges(r, a, r.Size());
    var es := AggregateEdges(r, ags, a);
    AggregateEdgeAt(r, ags, a, b, i);
    AggregateEdgeAt(r, ags, a, b, j);
    AggregatePrefix(r, ags[..j], a, i + 1);
    assert ags[..j][..i + 1] == ags[..i + 1];
    var m, n := |AggregateEdges(r, ags[..i], a)|, |AggregateEdges(r, ags[..j], a)|;
    assert g.From(a) == before + es;
    EqualEdgesRepeat(g, a, |before| + m, |before| + n);
  }

  lemma {:induction false} AggregatePrefix(r: Registry, ags: seq<(nat, nat)>, a: nat, k: nat)
    requires ValidAggregates(r, ags) && k <= |ags|
    ensures AggregateEdges(r, ags[..k], a) <= AggregateEdges(r, ags, a)
  {
    if k == |ags| {
      assert ags[..k] == ags;
    } else {
      var shorter := ags[..|ags| - 1];
      assert shorter[..k] == ags[..k];
      AggregatePrefix(r, shorter, a, k);
    }
  }

  lemma AggregateEdgeAt(r: Registry, ags: seq<(nat, nat)>, a: nat, b: nat, k: nat)
    requires ValidAggregates(r, ags) && a < r.Size() && b < r.Size() && a != b
    requires k < |ags| && Joins(ags[k], a, b)
    ensures var m := |AggregateEdges(r, ags[..k], a)|; var es := AggregateEdges(r, ags, a);
            m == |AggregateEdges(r, ags[..k + 1], a)| - 1 && m < |es| && es[m] == Edge("$" + r.names[b], b)
  {
    assert ags[..k + 1][..k] == ags[..k];
    AggregatePrefix(r, ags, a, k + 1);
  }

  // ---------------------------------------------------------------------------------------
  // Repetition told by labels
  // ---------------------------------------------------------------------------------------

  predicate Plain(name: string) {
    '/' !in name && name != "[i]"
  }

  /** No name of a type or an attribute has a slash or is the text that stands for an index. */
  ghost predicate PlainNames(r: Registry) {
    && (forall i :: 0 <= i < |r.names| ==> Plain(r.names[i]))
    && (forall t, i :: 0 <= t < |r.attributes| && 0 <= i < |r.attributes[t]| ==> Plain(r.attributes[t][i].name))
  }

  /** A label is a plain name, or one followed by the index. */
  ghost predicate IsLabel(segment: string) {
    Plain(segment) || exists n :: Plain(n) && segment == n + "/[i]"
  }

  ghost predicate AreLabels(path: seq<string>) {
    forall i :: 0 <= i < |path| ==> IsLabel(path[i])
  }

  ghost predicate Labelled(es: seq<Edge>) {
    forall i :: 0 <= i < |es| ==> IsLabel(es[i].segment)
  }

  lemma TypeLabel(name: string)
    requires Plain(name)
    ensures IsLabel("$" + name)
  {
    assert ("$" + name)[0] != "[i]"[0];
  }

  lemma {:induction false} AttributeLabels(r: Registry, tid: nat, n: nat)
    requires r.Valid() && PlainNames(r) && tid < |r.attributes| && n <= |r.attributes[tid]|
    ensures Labelled(AttributeEdges(r, tid, n))
  {
    if n > 0 {
      AttributeLabels(r, tid, n - 1);
      assert Plain(r.attributes[tid][n - 1].name);
    }
  }

  lemma {:induction false} ChildLabels(r: Registry, tid: nat, n: nat)
    requires PlainNames(r) && n <= r.Size()
    ensures Labelled(ChildEdges(r, tid, n))
  {
    hide IsLabel;
    if n > 0 {
      ChildLabels(r, tid, n - 1);
      TypeLabel(r.names[n - 1]);
    }
  }

  lemma {:induction false} AggregateLabels(r: Registry, aggregates: seq<(nat, nat)>, tid: nat)
    requires PlainNames(r) && ValidAggregates(r, aggregates)
    ensures Labelled(AggregateEdges(r, aggregates, tid))
  {
    hide IsLabel;
    if aggregates != [] {
      var item := aggregates[|aggregates| - 1];
      AggregateLabels(r, aggregates[..|aggregates| - 1], tid);
      TypeLabel(r.names[item.0]);
      TypeLabel(r.names[item.1]);
    }
  }

  lemma {:induction false} WalkLabels(g: Graph, t: nat, w: seq<nat>)
    requires g.Valid() && PlainNames(g.registry) && t < g.registry.Size() && IsWalk(g, t, w)
    ensures AreLabels(Segments(g, t, w))
    decreases |w|
  {
    hide IsLabel, PlainNames;
    if w != [] {
      AttributeLabels(g.registry, t, |g.registry.attributes[t]|);
      ChildLabels(g.registry, t, g.registry.Size());
      AggregateLabels(g.registry, g.aggregates, t);
      WalkLabels(g, g.From(t)[w[0]].target, w[1..]);
    }
  }

  /** The path cut at every slash. */
  function Cut(path: seq<string>): seq<string> {
    if path == [] then []
    else
      var last := path[|path| - 1];
      Cut(path[..|path| - 1]) + if '/' in last && |last| >= 4 then [last[..|last| - 4], "[i]"] else [last]
  }

  lemma LabelCut(segment: string)
    requires IsLabel(segment)
    ensures '/' in segment ==>
              |segment| >= 4 && Plain(segment[..|segment| - 4]) && segment == segment[..|segment| - 4] + "/[i]"
  {
    if '/' in segment {
      var n :| Plain(n) && segment == n + "/[i]";
      assert segment[..|segment| - 4] == n;
    }
  }

  ghost predicate SlashFree(tokens: seq<string>) {
    forall i :: 0 <= i < |tokens| ==> '/' !in tokens[i]
  }

  lemma {:induction false} CutKeepsText(path: seq<string>)
    requires AreLabels(path)
    ensures PathText(Cut(path)) == PathText(path) && SlashFree(Cut(path))
  {
    hide IsLabel;
    if path != [] {
      var before, last := path[..|path| - 1], path[|path| - 1];
      CutKeepsText(before);
      LabelCut(last);
      var c := Cut(before);
      if '/' in last {
        var n := last[..|last| - 4];
        assert Cut(path) == (c + [n]) + ["[i]"];
        assert (c + [n] + ["[i]"])[..|c| + 1] == c + [n] && (c + [n])[..|c|] == c;
        assert PathText(c) + "/" + n + "/" + "[i]" == PathText(c) + "/" + (n + "/[i]");
      } else {
        assert (c + [last])[..|c|] == c;
      }
    }
  }

  lemma SameLastToken(a: string, t: string, b: string, u: string)
    requires a + "/" + t == b + "/" + u && '/' !in t && '/' !in u
    ensures a == b && t == u
  {
    var s := a + "/" + t;
    assert s[|a|] == '/' && s[|b|] == '/';
    assert forall i :: |a| < i < |s| ==> s[i] == t[i - |a| - 1];
    assert forall i :: |b| < i < |s| ==> s[i] == u[i - |b| - 1];
    assert |a| == |b|;
    assert a == s[..|a|] && b == s[..|b|] && t == s[|a| + 1..] && u == s[|b| + 1..];
  }

  lemma {:induction false} TextTellsTokens(p: seq<string>, q: seq<string>)
    requires SlashFree(p) && SlashFree(q) && PathText(p) == PathText(q)
    ensures p == q
  {
    if p != [] && q != [] {
      var m, n := |p| - 1, |q| - 1;
      SameLastToken(PathText(p[..m]), p[m], PathText(q[..n]), q[n]);
      TextTellsTokens(p[..m], q[..n]);
      assert p == p[..m] + [p[m]] && q == q[..n] + [q[n]];
    }
  }

  lemma CutLast(p: seq<string>)
    requires AreLabels(p) && p != []
    ensures var before, last, c := p[..|p| - 1], p[|p| - 1], Cut(p);
            && c != [] && (c[|c| - 1] == "[i]" <==> '/' in last)
            && (if '/' in last then |last| >= 4 && c == Cut(before) + [last[..|last| - 4], "[i]"]
                else c == Cut(before) + [last])
  {
    assert IsLabel(p[|p| - 1]);
    LabelCut(p[|p| - 1]);
  }

  lemma LabelFromCut(s: string, t: string)
    requires IsLabel(s) && IsLabel(t) && '/' in s && '/' in t
    requires |s| >= 4 && |t| >= 4 && s[..|s| - 4] == t[..|t| - 4]
    ensures s == t
  {
    hide IsLabel;
    LabelCut(s);
    LabelCut(t);
  }

  lemma SplitTwo(a: seq<string>, x: string, y: string, b: seq<string>, z: string)
    ensures a + [x, y] == b + [z, y] ==> a == b && x == z
    ensures a + [x] == b + [z] ==> a == b && x == z
  {
    var m, n := |a|, |b|;
    if a + [x, y] == b + [z, y] {
      assert m == n && (a + [x, y])[..m] == a && (b + [z, y])[..n] == b;
      assert (a + [x, y])[m] == x && (b + [z, y])[n] == z;
    }
    if a + [x] == b + [z] {
      assert m == n && (a + [x])[..m] == a && (b + [z])[..n] == b;
      assert (a + [x])[m] == x && (b + [z])[n] == z;
    }
  }

  lemma {:induction false} CutTellsPath(p: seq<string>, q: seq<string>)
    requires AreLabels(p) && AreLabels(q) && Cut(p) == Cut(q)
    ensures p == q
  {
    hide Cut, IsLabel;
    NothingCut();
    if p != [] {
      CutLast(p);
    }
    if q != [] {
      CutLast(q);
    }
    if p != [] && q != [] {
      var m, n := |p| - 1, |q| - 1;
      if '/' in p[m] {
        SplitTwo(Cut(p[..m]), p[m][..|p[m]| - 4], "[i]", Cut(q[..n]), q[n][..|q[n]| - 4]);
        LabelFromCut(p[m], q[n]);
      } else {
        SplitTwo(Cut(p[..m]), p[m], "", Cut(q[..n]), q[n]);
      }
      CutTellsPath(p[..m], q[..n]);
      assert p == p[..m] + [p[m]] && q == q[..n] + [q[n]];
    }
  }

  lemma NothingCut()
    ensures Cut([]) == []
  {
  }

  /** With plain names an entry occurs twice exactly when two different walks that repeat no type
      end at one type and carry the same labels. */
  lemma {:induction false} RepeatsIffLabels(g: Graph, root: nat)
    requires g.Valid() && root < g.registry.Size() && PlainNames(g.registry)
    ensures Repeats(Gathered(g.registry, g.aggregates, root, [], []))
            <==> exists v, w :: v != w && Simple(g, root, v, []) && Simple(g, root, w, [])
                                && Types(g, root, v)[|v|] == Types(g, root, w)[|w|]
                                && Segments(g, root, v) == Segments(g, root, w)
  {
    hide Gathered, Types, Segments, Repeats, PathText, PlainNames, RecordOf;
    RepeatsIff(g, root);
    forall v, w | Simple(g, root, v, []) && Simple(g, root, w, [])
      ensures RecordOf(g, root, v) == RecordOf(g, root, w)
              <==> Types(g, root, v)[|v|] == Types(g, root, w)[|w|] && Segments(g, root, v) == Segments(g, root, w)
    {
      RecordsAgreeIff(g, root, v, w);
    }
  }

  lemma RecordsAgreeIff(g: Graph, root: nat, v: seq<nat>, w: seq<nat>)
    requires g.Valid() && root < g.registry.Size() && PlainNames(g.registry)
    requires IsWalk(g, root, v) && IsWalk(g, root, w)
    ensures RecordOf(g, root, v) == RecordOf(g, root, w)
            <==> Types(g, root, v)[|v|] == Types(g, root, w)[|w|] && Segments(g, root, v) == Segments(g, root, w)
  {
    hide Types, Segments, PathText, PlainNames, AreLabels;
    var p, q := Segments(g, root, v), Segments(g, root, w);
    assert [] + p == p && [] + q == q;
    WalkLabels(g, root, v);
    WalkLabels(g, root, w);
    if PathText(p) == PathText(q) {
      CutKeepsText(p);
      CutKeepsText(q);
      TextTellsTokens(Cut(p), Cut(q));
      CutTellsPath(p, q);
    }
  }
}
