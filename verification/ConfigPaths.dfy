/** The gathering of configuration paths in print-introspected-doxygen.cc: a depth-first
    enumeration over types, with the types on the current path on a stack. */
module ConfigPaths {
  import opened EntryOrder

  /** What an attribute's checker says about its value. */
  datatype Checker = PointerTo(pointee: nat) | ContainerOf(item: nat) | Other

  datatype Attribute = Attribute(name: string, checker: Checker)

  /** The registered types: their names and attributes, by number, the number of plain Object,
      and the relation `IsChildOf`. */
  datatype Registry =
    Registry(names: seq<string>, attributes: seq<seq<Attribute>>, objectType: nat, descends: set<(nat, nat)>)
  {
    function Size(): nat {
      |names|
    }

    ghost predicate Valid() {
      && |attributes| == |names|
      && forall t, i :: 0 <= t < |attributes| && 0 <= i < |attributes[t]| ==>
           match attributes[t][i].checker
           case PointerTo(u) => u < |names|
           case ContainerOf(u) => u < |names|
           case Other => true
    }
  }

  /** One step of a configuration path. */
  datatype Edge = Edge(segment: string, target: nat)

  // ---------------------------------------------------------------------------------------
  // The edges of the graph, in the order in which they are followed
  // ---------------------------------------------------------------------------------------

  function AttributeEdge(r: Registry, a: Attribute): seq<Edge> {
    match a.checker
    case PointerTo(u) => if u == r.objectType then [] else [Edge(a.name, u)]
    case ContainerOf(u) => [Edge(a.name + "/[i]", u)]
    case Other => []
  }

  function AttributeEdges(r: Registry, tid: nat, n: nat): seq<Edge>
    requires tid < |r.attributes| && n <= |r.attributes[tid]|
  {
    if n == 0 then [] else AttributeEdges(r, tid, n - 1) + AttributeEdge(r, r.attributes[tid][n - 1])
  }

  function ChildEdges(r: Registry, tid: nat, n: nat): seq<Edge>
    requires n <= r.Size()
  {
    if n == 0 then []
    else ChildEdges(r, tid, n - 1) + (if (n - 1, tid) in r.descends then [Edge("$" + r.names[n - 1], n - 1)] else [])
  }

  predicate ValidAggregates(r: Registry, aggregates: seq<(nat, nat)>) {
    forall i :: 0 <= i < |aggregates| ==> aggregates[i].0 < r.Size() && aggregates[i].1 < r.Size()
  }

  /** An aggregation can be followed from either end. */
  function AggregateEdges(r: Registry, aggregates: seq<(nat, nat)>, tid: nat): seq<Edge>
    requires ValidAggregates(r, aggregates)
  {
    if aggregates == [] then []
    else
      var item := aggregates[|aggregates| - 1];
      AggregateEdges(r, aggregates[..|aggregates| - 1], tid)
      + (if item.1 == tid then [Edge("$" + r.names[item.0], item.0)]
         else if item.0 == tid then [Edge("$" + r.names[item.1], item.1)]
         else [])
  }

  function Edges(r: Registry, aggregates: seq<(nat, nat)>, tid: nat): seq<Edge>
    requires r.Valid() && ValidAggregates(r, aggregates) && tid < r.Size()
  {
    AttributeEdges(r, tid, |r.attributes[tid]|) + ChildEdges(r, tid, r.Size()) + AggregateEdges(r, aggregates, tid)
  }

  predicate InRange(r: Registry, es: seq<Edge>) {
    forall i :: 0 <= i < |es| ==> es[i].target < r.Size()
  }

  lemma {:induction false} AttributeEdgesInRange(r: Registry, tid: nat, n: nat)
    requires r.Valid() && tid < |r.attributes| && n <= |r.attributes[tid]|
    ensures InRange(r, AttributeEdges(r, tid, n))
  {
    if n > 0 {
      AttributeEdgesInRange(r, tid, n - 1);
      var a := r.attributes[tid][n - 1];
      assert match a.checker case PointerTo(u) => u < |r.names| case ContainerOf(u) => u < |r.names| case Other => true;
    }
  }

  lemma EdgesInRange(r: Registry, aggregates: seq<(nat, nat)>, tid: nat)
    requires r.Valid() && ValidAggregates(r, aggregates) && tid < r.Size()
    ensures InRange(r, Edges(r, aggregates, tid))
  {
    AttributeEdgesInRange(r, tid, |r.attributes[tid]|);
    ChildEdgesInRange(r, tid, r.Size());
    AggregateEdgesInRange(r, aggregates, tid);
  }

  lemma ChildEdgesInRange(r: Registry, tid: nat, n: nat)
    requires n <= r.Size()
    ensures InRange(r, ChildEdges(r, tid, n))
  {
  }

  lemma AggregateEdgesInRange(r: Registry, aggregates: seq<(nat, nat)>, tid: nat)
    requires ValidAggregates(r, aggregates)
    ensures InRange(r, AggregateEdges(r, aggregates, tid))
  {
    if aggregates != [] {
      AggregateEdgesInRange(r, aggregates[..|aggregates| - 1], tid);
    }
  }

  lemma NoAttributeEdges(r: Registry, tid: nat)
    requires r.Valid() && tid < r.Size()
    ensures AttributeEdges(r, tid, 0) == []
  {
  }

  /** The edge an attribute adds, if it adds one. */
  lemma AttributeEdgesStep(r: Registry, tid: nat, i: nat)
    requires r.Valid() && tid < r.Size() && i < |r.attributes[tid]|
    ensures var info := r.attributes[tid][i];
            AttributeEdges(r, tid, i + 1)
            == match info.checker
               case PointerTo(u) =>
                 if r.objectType == u then AttributeEdges(r, tid, i)
                 else AttributeEdges(r, tid, i) + [Edge(info.name, u)]
               case ContainerOf(u) => AttributeEdges(r, tid, i) + [Edge(info.name + "/[i]", u)]
               case Other => AttributeEdges(r, tid, i)
    ensures match r.attributes[tid][i].checker
            case PointerTo(u) => u < r.Size()
            case ContainerOf(u) => u < r.Size()
            case Other => true
  {
    assert AttributeEdges(r, tid, i) + [] == AttributeEdges(r, tid, i);
  }

  // ---------------------------------------------------------------------------------------
  // The depth-first enumeration as a function
  // ---------------------------------------------------------------------------------------

  function PathText(path: seq<string>): string {
    if path == [] then "" else PathText(path[..|path| - 1]) + "/" + path[|path| - 1]
  }

  /** The types that may still be put on the stack. */
  function Unvisited(r: Registry, visited: seq<nat>): set<nat> {
    set t: nat | t < r.Size() && t !in visited
  }

  lemma UnvisitedShrinks(r: Registry, visited: seq<nat>, tid: nat)
    requires tid < r.Size() && tid !in visited
    ensures |Unvisited(r, visited + [tid])| < |Unvisited(r, visited)|
  {
    var a, b := Unvisited(r, visited), Unvisited(r, visited + [tid]);
    assert b == a - {tid};
  }

  /** What `DoGather(tid)` appends, given the path to `tid` and the types on that path. */
  function Gathered(r: Registry, aggregates: seq<(nat, nat)>, tid: nat, path: seq<string>, visited: seq<nat>)
    : seq<Entry>
    requires r.Valid() && ValidAggregates(r, aggregates) && tid < r.Size()
    decreases |Unvisited(r, visited)|, 1, 0
  {
    if tid in visited then []
    else
      EdgesInRange(r, aggregates, tid);
      UnvisitedShrinks(r, visited, tid);
      [Entry(tid, PathText(path))] + GatheredAlong(r, aggregates, Edges(r, aggregates, tid), path, visited + [tid])
  }

  function GatheredAlong(r: Registry, aggregates: seq<(nat, nat)>, es: seq<Edge>, path: seq<string>, visited: seq<nat>)
    : seq<Entry>
    requires r.Valid() && ValidAggregates(r, aggregates) && InRange(r, es)
    decreases |Unvisited(r, visited)|, 2, |es|
  {
    if es == [] then []
    else
      var last := es[|es| - 1];
      GatheredAlong(r, aggregates, es[..|es| - 1], path, visited)
      + Gathered(r, aggregates, last.target, path + [last.segment], visited)
  }

  lemma GatheredUnfolds(r: Registry, aggregates: seq<(nat, nat)>, tid: nat, path: seq<string>, visited: seq<nat>)
    requires r.Valid() && ValidAggregates(r, aggregates) && tid < r.Size()
    ensures tid in visited ==> Gathered(r, aggregates, tid, path, visited) == []
    ensures var es := AttributeEdges(r, tid, |r.attributes[tid]|) + ChildEdges(r, tid, r.Size())
                      + AggregateEdges(r, aggregates, tid);
            && InRange(r, es)
            && (tid !in visited ==>
                  Gathered(r, aggregates, tid, path, visited)
                  == [Entry(tid, PathText(path))] + GatheredAlong(r, aggregates, es, path, visited + [tid]))
  {
    EdgesInRange(r, aggregates, tid);
  }

  lemma AlongAppend(r: Registry, aggregates: seq<(nat, nat)>, es: seq<Edge>, e: Edge,
                    path: seq<string>, visited: seq<nat>)
    requires r.Valid() && ValidAggregates(r, aggregates) && InRange(r, es) && e.target < r.Size()
    ensures InRange(r, es + [e])
    ensures GatheredAlong(r, aggregates, es + [e], path, visited)
            == GatheredAlong(r, aggregates, es, path, visited)
               + Gathered(r, aggregates, e.target, path + [e.segment], visited)
  {
    assert (es + [e])[..|es|] == es;
  }

  // ---------------------------------------------------------------------------------------
  // The class
  // ---------------------------------------------------------------------------------------

  class StaticInformation {
    const registry: Registry
    var output: seq<Entry>
    var currentPath: seq<string>
    var alreadyProcessed: seq<nat>
    var aggregates: seq<(nat, nat)>

    ghost predicate Valid()
      reads this
    {
      registry.Valid() && ValidAggregates(registry, aggregates)
    }

    constructor (registry: Registry)
      requires registry.Valid()
      ensures Valid() && this.registry == registry
      ensures output == [] && currentPath == [] && alreadyProcessed == [] && aggregates == []
    {
      this.registry := registry;
      output, currentPath, alreadyProcessed, aggregates := [], [], [], [];
    }

    method HasAlreadyBeenProcessed(tid: nat) returns (found: bool)
      ensures found <==> tid in alreadyProcessed
    {
      for i := 0 to |alreadyProcessed|
        invariant forall k :: 0 <= k < i ==> alreadyProcessed[k] != tid
      {
        if alreadyProcessed[i] == tid {
          return true;
        }
      }
      return false;
    }

    method GetCurrentPath() returns (path: string)
      ensures path == PathText(currentPath)
    {
      path := "";
      for i := 0 to |currentPath|
        invariant path == PathText(currentPath[..i])
      {
        assert currentPath[..i + 1][..i] == currentPath[..i];
        path := path + "/" + currentPath[i];
      }
      assert currentPath[..|currentPath|] == currentPath;
    }

    method RecordOutput(tid: nat)
      modifies this`output
      ensures output == old(output) + [Entry(tid, PathText(currentPath))]
    {
      var path := GetCurrentPath();
      output := output + [Entry(tid, path)];
    }

    /** The paths recorded for one type. */
    method Get(tid: nat) returns (paths: seq<string>)
      ensures paths == PathsOf(output, tid)
    {
      paths := [];
      for i := 0 to |output|
        invariant paths == PathsOf(output[..i], tid)
      {
        assert output[..i + 1][..i] == output[..i];
        if output[i].tid == tid {
          paths := paths + [output[i].path];
        }
      }
      assert output[..|output|] == output;
    }

    /** Since `before`, exactly the entries along these edges of `tid` have been appended. */
    ghost predicate Along(before: seq<Entry>, tid: nat, es: seq<Edge>)
      requires Valid()
      reads this
    {
      && InRange(registry, es)
      && output == before + GatheredAlong(registry, aggregates, es, currentPath, alreadyProcessed + [tid])
    }

    /** Follows one edge: push, recurse, pop. */
    method Follow(tid: nat, segment: string, target: nat, ghost before: seq<Entry>, ghost es: seq<Edge>)
      requires Valid() && tid < registry.Size() && target < registry.Size()
      requires tid !in alreadyProcessed && Along(before, tid, es)
      modifies this`output, this`currentPath, this`alreadyProcessed
      ensures currentPath == old(currentPath) && alreadyProcessed == old(alreadyProcessed)
      ensures Along(before, tid, es + [Edge(segment, target)])
      decreases |Unvisited(registry, alreadyProcessed)|, 0
    {
      hide Gathered, GatheredAlong;
      UnvisitedShrinks(registry, alreadyProcessed, tid);
      AlongAppend(registry, aggregates, es, Edge(segment, target), currentPath, alreadyProcessed + [tid]);
      currentPath := currentPath + [segment];
      alreadyProcessed := alreadyProcessed + [tid];
      DoGather(target);
      alreadyProcessed := alreadyProcessed[..|alreadyProcessed| - 1];
      currentPath := currentPath[..|currentPath| - 1];
    }

    /** The stacks are restored and exactly the entries of `Gathered` are appended. */
    method DoGather(tid: nat)
      requires Valid() && tid < registry.Size()
      modifies this`output, this`currentPath, this`alreadyProcessed
      ensures currentPath == old(currentPath) && alreadyProcessed == old(alreadyProcessed)
      ensures output == old(output) + Gathered(registry, aggregates, tid, currentPath, alreadyProcessed)
      decreases |Unvisited(registry, alreadyProcessed)|, 2
    {
      hide Gathered, GatheredAlong, Edges;
      GatheredUnfolds(registry, aggregates, tid, currentPath, alreadyProcessed);
      var done := HasAlreadyBeenProcessed(tid);
      if done {
        return;
      }
      RecordOutput(tid);
      ghost var before := output;
      ghost var es := AttributeEdges(registry, tid, |registry.attributes[tid]|);
      FollowAttributes(tid, before);
      FollowChildren(tid, before, es);
      FollowAggregates(tid, before, es + ChildEdges(registry, tid, registry.Size()));
    }

    method FollowAttributes(tid: nat, ghost before: seq<Entry>)
      requires Valid() && tid < registry.Size() && tid !in alreadyProcessed
      requires output == before
      modifies this`output, this`currentPath, this`alreadyProcessed
      ensures currentPath == old(currentPath) && alreadyProcessed == old(alreadyProcessed)
      ensures Along(before, tid, AttributeEdges(registry, tid, |registry.attributes[tid]|))
      decreases |Unvisited(registry, alreadyProcessed)|, 1
    {
      hide Along, AttributeEdges, AttributeEdge, Gathered, GatheredAlong;
      var attributes := registry.attributes[tid];
      NothingAlong(before, tid);
      NoAttributeEdges(registry, tid);
      for i := 0 to |attributes|
        invariant currentPath == old(currentPath) && alreadyProcessed == old(alreadyProcessed)
        invariant Along(before, tid, AttributeEdges(registry, tid, i))
      {
        var info := attributes[i];
        ghost var es := AttributeEdges(registry, tid, i);
        AttributeEdgesStep(registry, tid, i);
        match info.checker {
          case PointerTo(pointee) =>
            if registry.objectType == pointee {
              continue;
            }
            Follow(tid, info.name, pointee, before, es);
          case ContainerOf(item) =>
            Follow(tid, info.name + "/[i]", item, before, es);
          case Other =>
        }
      }
    }

    lemma NothingAlong(before: seq<Entry>, tid: nat)
      requires Valid() && output == before
      ensures Along(before, tid, [])
    {
      assert before + [] == before;
    }

    method FollowChildren(tid: nat, ghost before: seq<Entry>, ghost es: seq<Edge>)
      requires Valid() && tid < registry.Size() && tid !in alreadyProcessed
      requires Along(before, tid, es)
      modifies this`output, this`currentPath, this`alreadyProcessed
      ensures currentPath == old(currentPath) && alreadyProcessed == old(alreadyProcessed)
      ensures Along(before, tid, es + ChildEdges(registry, tid, registry.Size()))
      decreases |Unvisited(registry, alreadyProcessed)|, 1
    {
      hide Along;
      assert es + [] == es;
      for j := 0 to registry.Size()
        invariant currentPath == old(currentPath) && alreadyProcessed == old(alreadyProcessed)
        invariant Along(before, tid, es + ChildEdges(registry, tid, j))
      {
        ghost var so := es + ChildEdges(registry, tid, j);
        if (j, tid) in registry.descends {
          var childName := "$" + registry.names[j];
          assert es + ChildEdges(registry, tid, j + 1) == so + [Edge(childName, j)];
          Follow(tid, childName, j, before, so);
        } else {
          assert es + ChildEdges(registry, tid, j + 1) == so;
        }
      }
    }

    method FollowAggregates(tid: nat, ghost before: seq<Entry>, ghost es: seq<Edge>)
      requires Valid() && tid < registry.Size() && tid !in alreadyProcessed
      requires Along(before, tid, es)
      modifies this`output, this`currentPath, this`alreadyProcessed
      ensures currentPath == old(currentPath) && alreadyProcessed == old(alreadyProcessed)
      ensures Along(before, tid, es + AggregateEdges(registry, aggregates, tid))
      decreases |Unvisited(registry, alreadyProcessed)|, 1
    {
      hide Along;
      assert es + [] == es;
      for k := 0 to |aggregates|
        invariant currentPath == old(currentPath) && alreadyProcessed == old(alreadyProcessed)
        invariant Along(before, tid, es + AggregateEdges(registry, aggregates[..k], tid))
      {
        var item := aggregates[k];
        ghost var so := es + AggregateEdges(registry, aggregates[..k], tid);
        assert aggregates[..k + 1][..k] == aggregates[..k];
        if item.0 == tid || item.1 == tid {
          var other := item.0;
          if item.0 == tid {
            other := item.1;
          }
          if item.1 == tid {
            other := item.0;
          }
          var name := "$" + registry.names[other];
          assert es + AggregateEdges(registry, aggregates[..k + 1], tid) == so + [Edge(name, other)];
          Follow(tid, name, other, before, so);
        } else {
          assert es + AggregateEdges(registry, aggregates[..k + 1], tid) == so;
        }
      }
      assert aggregates[..|aggregates|] == aggregates;
    }

    /** `Uniquefy` takes its parameter by value: what it makes of the copy is lost, and the list is
        the one `DoGather` left. */
    method Gather(tid: nat)
      requires Valid() && tid < registry.Size()
      modifies this`output, this`currentPath, this`alreadyProcessed
      ensures currentPath == old(currentPath) && alreadyProcessed == old(alreadyProcessed)
      ensures output == old(output) + Gathered(registry, aggregates, tid, currentPath, alreadyProcessed)
    {
      DoGather(tid);
      var unique := Uniquefy(output);
    }
  }

  function PathsOf(output: seq<Entry>, tid: nat): seq<string> {
    if output == [] then []
    else
      var last := output[|output| - 1];
      PathsOf(output[..|output| - 1], tid) + (if last.tid == tid then [last.path] else [])
  }
}
