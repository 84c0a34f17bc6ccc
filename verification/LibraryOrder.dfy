/** The order in which the Python bindings load the ns-3 libraries: a recursion that, step by
    step, moves the libraries whose dependencies are all loaded from a pending list to a
    loaded one. */
module LibraryOrder {

  type Dependencies = map<string, seq<string>>

  // ---------------------------------------------------------------------------------------
  // Chains of dependencies
  // ---------------------------------------------------------------------------------------

  /** A chain begins anywhere and each member but the last depends on the next. */
  ghost predicate IsChain(deps: Dependencies, c: seq<string>) {
    c != [] && forall i :: 0 <= i < |c| - 1 ==> c[i] in deps && c[i + 1] in deps[c[i]]
  }

  ghost predicate Closed(deps: Dependencies) {
    forall m, d :: m in deps && d in deps[m] ==> d in deps
  }

  ghost predicate Acyclic(deps: Dependencies) {
    forall c :: IsChain(deps, c) && |c| > 1 ==> c[0] != c[|c| - 1]
  }

  /** Every library comes strictly after each of its dependencies. */
  ghost predicate DependenciesFirst(deps: Dependencies, sorted: seq<string>) {
    forall i, d :: 0 <= i < |sorted| && sorted[i] in deps && d in deps[sorted[i]] ==>
      exists j :: 0 <= j < i && sorted[j] == d
  }

  /** Every chain from `m` stays among the libraries and has at most `k` links. */
  predicate Within(deps: Dependencies, m: string, k: nat)
    decreases k
  {
    m in deps && forall d :: d in deps[m] ==> k > 0 && Within(deps, d, k - 1)
  }

  ghost predicate ChainsWithin(deps: Dependencies, m: string, k: nat) {
    forall c :: IsChain(deps, c) && c[0] == m ==> |c| - 1 <= k && c[|c| - 1] in deps
  }

  lemma {:induction false} WithinMeans(deps: Dependencies, m: string, k: nat)
    ensures Within(deps, m, k) <==> ChainsWithin(deps, m, k)
  {
    if Within(deps, m, k) {
      forall c | IsChain(deps, c) && c[0] == m
        ensures |c| - 1 <= k && c[|c| - 1] in deps
      {
        ChainBounded(deps, m, k, c);
      }
    } else {
      var c := LongChain(deps, m, k);
    }
  }

  lemma {:induction false} ChainBounded(deps: Dependencies, m: string, k: nat, c: seq<string>)
    requires Within(deps, m, k) && IsChain(deps, c) && c[0] == m
    ensures |c| - 1 <= k && c[|c| - 1] in deps
    decreases k
  {
    if |c| > 1 {
      assert c[0 + 1] in deps[c[0]];
      assert IsChain(deps, c[1..]) by {
        forall i | 0 <= i < |c[1..]| - 1
          ensures c[1..][i] in deps && c[1..][i + 1] in deps[c[1..][i]]
        {
          var j := i + 1;
          assert c[j] in deps && c[j + 1] in deps[c[j]];
        }
      }
      ChainBounded(deps, c[1], k - 1, c[1..]);
    }
  }

  lemma {:induction false} LongChain(deps: Dependencies, m: string, k: nat) returns (c: seq<string>)
    requires !Within(deps, m, k)
    ensures IsChain(deps, c) && c[0] == m
    ensures |c| - 1 == k + 1 || (|c| - 1 <= k && c[|c| - 1] !in deps)
    decreases k
  {
    if m !in deps {
      c := [m];
    } else {
      var d :| d in deps[m] && !(k > 0 && Within(deps, d, k - 1));
      if k == 0 {
        c := [m, d];
      } else {
        var rest := LongChain(deps, d, k - 1);
        c := [m] + rest;
      }
    }
  }

  lemma {:induction false} WithinMore(deps: Dependencies, m: string, k: nat)
    requires Within(deps, m, k)
    ensures Within(deps, m, k + 1)
    decreases k
  {
    forall d | d in deps[m]
      ensures Within(deps, d, k)
    {
      WithinMore(deps, d, k - 1);
    }
  }

  // ---------------------------------------------------------------------------------------
  // Layers
  // ---------------------------------------------------------------------------------------

  /** Loaded before step `k`. */
  predicate Below(deps: Dependencies, m: string, k: nat) {
    k > 0 && Within(deps, m, k - 1)
  }

  lemma BelowMore(deps: Dependencies, m: string, k: nat)
    requires Below(deps, m, k)
    ensures Within(deps, m, k) && Below(deps, m, k + 1)
  {
    WithinMore(deps, m, k - 1);
  }

  function Keep(s: seq<string>, p: string -> bool): seq<string> {
    if s == [] then [] else Keep(s[..|s| - 1], p) + (if p(s[|s| - 1]) then [s[|s| - 1]] else [])
  }

  lemma {:induction false} KeepMembers(s: seq<string>, p: string -> bool, x: string)
    ensures x in Keep(s, p) <==> x in s && p(x)
  {
    if s != [] {
      assert s == s[..|s| - 1] + [s[|s| - 1]];
      KeepMembers(s[..|s| - 1], p, x);
    }
  }

  lemma {:induction false} KeepSame(s: seq<string>, p: string -> bool, q: string -> bool)
    requires forall x :: x in s ==> p(x) == q(x)
    ensures Keep(s, p) == Keep(s, q)
  {
    if s != [] {
      KeepSame(s[..|s| - 1], p, q);
    }
  }

  lemma {:induction false} KeepTwice(s: seq<string>, p: string -> bool, q: string -> bool)
    ensures Keep(Keep(s, p), q) == Keep(s, x => p(x) && q(x))
  {
    if s != [] {
      var a, l := s[..|s| - 1], s[|s| - 1];
      KeepTwice(a, p, q);
      if p(l) {
        assert (Keep(a, p) + [l])[..|Keep(a, p)|] == Keep(a, p);
      } else {
        assert Keep(a, p) + [] == Keep(a, p);
      }
    }
  }

  /** What is still pending when step `k` begins, and what step `k` loads, in the order of
      the library list. */
  function Rest(deps: Dependencies, names: seq<string>, k: nat): seq<string> {
    Keep(names, m => !Below(deps, m, k))
  }

  function Layer(deps: Dependencies, names: seq<string>, k: nat): seq<string> {
    Keep(names, m => !Below(deps, m, k) && Within(deps, m, k))
  }

  function Loaded(deps: Dependencies, names: seq<string>, k: nat): seq<string> {
    if k == 0 then [] else Loaded(deps, names, k - 1) + Layer(deps, names, k - 1)
  }

  lemma {:induction false} LoadedMembers(deps: Dependencies, names: seq<string>, k: nat, m: string)
    ensures m in Loaded(deps, names, k) <==> m in names && Below(deps, m, k)
  {
    if k > 0 {
      LoadedMembers(deps, names, k - 1, m);
      KeepMembers(names, m => !Below(deps, m, k - 1) && Within(deps, m, k - 1), m);
      if Below(deps, m, k - 1) {
        BelowMore(deps, m, k - 1);
      }
    }
  }

  function Loadable(deps: Dependencies, pending: seq<string>, current: seq<string>): seq<string>
    requires forall m :: m in pending ==> m in deps
  {
    if pending == [] then []
    else
      var m := pending[|pending| - 1];
      Loadable(deps, pending[..|pending| - 1], current)
      + (if forall d :: d in deps[m] ==> d in current then [m] else [])
  }

  lemma {:induction false} LoadableIsKeep(deps: Dependencies, pending: seq<string>, current: seq<string>)
    requires forall m :: m in pending ==> m in deps
    ensures Loadable(deps, pending, current)
            == Keep(pending, m => m in deps && forall d :: d in deps[m] ==> d in current)
  {
    if pending != [] {
      LoadableIsKeep(deps, pending[..|pending| - 1], current);
    }
  }

  ghost predicate Lists(deps: Dependencies, names: seq<string>) {
    && (forall m :: m in names <==> m in deps)
    && (forall i, j :: 0 <= i < j < |names| ==> names[i] != names[j])
  }

  /** At step `k` the loadable libraries are those whose longest chain has exactly `k` links. */
  lemma {:induction false} LoadableIsLayer(deps: Dependencies, names: seq<string>, k: nat)
    requires Lists(deps, names)
    ensures forall m :: m in Rest(deps, names, k) ==> m in deps
    ensures Loadable(deps, Rest(deps, names, k), Loaded(deps, names, k)) == Layer(deps, names, k)
  {
    var rest, loaded := Rest(deps, names, k), Loaded(deps, names, k);
    forall m | m in rest
      ensures m in deps
    {
      KeepMembers(names, m => !Below(deps, m, k), m);
    }
    LoadableIsKeep(deps, rest, loaded);
    var p := m => !Below(deps, m, k);
    var q := m => m in deps && forall d :: d in deps[m] ==> d in loaded;
    KeepTwice(names, p, q);
    forall m | m in names
      ensures q(m) == Within(deps, m, k)
    {
      forall d | d in deps[m]
        ensures d in loaded <==> k > 0 && Within(deps, d, k - 1)
      {
        LoadedMembers(deps, names, k, d);
      }
    }
    KeepSame(names, x => p(x) && q(x), m => !Below(deps, m, k) && Within(deps, m, k));
  }

  // ---------------------------------------------------------------------------------------
  // The sorter
  // ---------------------------------------------------------------------------------------

  /** `list.remove`: drops the first occurrence. */
  function Remove(s: seq<string>, x: string): seq<string> {
    if s == [] then [] else if s[0] == x then s[1..] else [s[0]] + Remove(s[1..], x)
  }

  predicate NoDup(s: seq<string>) {
    forall i, j :: 0 <= i < j < |s| ==> s[i] != s[j]
  }

  lemma {:induction false} KeepAppend(a: seq<string>, b: seq<string>, p: string -> bool)
    ensures Keep(a + b, p) == Keep(a, p) + Keep(b, p)
  {
    if b == [] {
      assert a + b == a && Keep(a, p) + [] == Keep(a, p);
    } else {
      assert (a + b)[..|a + b| - 1] == a + b[..|b| - 1];
      KeepAppend(a, b[..|b| - 1], p);
    }
  }

  lemma {:induction false} RemoveIsKeep(s: seq<string>, x: string)
    requires NoDup(s)
    ensures Remove(s, x) == Keep(s, y => y != x)
  {
    if s != [] {
      var h, t := s[..1], s[1..];
      assert s == h + t && h[..0] == [];
      RemoveIsKeep(t, x);
      KeepAppend(h, t, y => y != x);
      assert Keep(h, y => y != x) == if s[0] != x then h else [];
      if s[0] == x {
        KeepSame(t, y => y != x, y => true);
        KeepEverything(t);
      }
    }
  }

  lemma {:induction false} KeepEverything(s: seq<string>)
    ensures Keep(s, y => true) == s
  {
    if s != [] {
      KeepEverything(s[..|s| - 1]);
      assert s == s[..|s| - 1] + [s[|s| - 1]];
    }
  }

  lemma {:induction false} KeepNoDup(s: seq<string>, p: string -> bool)
    requires NoDup(s)
    ensures NoDup(Keep(s, p))
  {
    if s != [] {
      var a := s[..|s| - 1];
      KeepNoDup(a, p);
      var k := Keep(a, p);
      forall i | 0 <= i < |k|
        ensures k[i] != s[|s| - 1]
      {
        KeepMembers(a, p, k[i]);
      }
    }
  }

  lemma RemoveOne(pending: seq<string>, modules: seq<string>, i: nat)
    requires NoDup(pending) && i < |modules|
    ensures Remove(Keep(pending, y => y !in modules[..i]), modules[i]) == Keep(pending, y => y !in modules[..i + 1])
  {
    var m := modules[i];
    assert modules[..i + 1] == modules[..i] + [m];
    KeepNoDup(pending, y => y !in modules[..i]);
    RemoveIsKeep(Keep(pending, y => y !in modules[..i]), m);
    KeepTwice(pending, y => y !in modules[..i], y => y != m);
    KeepSame(pending, x => (y => y !in modules[..i])(x) && (y => y != m)(x), y => y !in modules[..i + 1]);
  }

  class DependencySorter {
    const dependencies: Dependencies
    var pendingModules: seq<string>
    var currentModules: seq<string>
    var steps: map<nat, seq<string>>

    constructor (dependencies: Dependencies, names: seq<string>)
      ensures this.dependencies == dependencies
      ensures pendingModules == names && currentModules == [] && steps == map[]
    {
      this.dependencies := dependencies;
      pendingModules, currentModules, steps := names, [], map[];
    }

    /** The state at the beginning of step `k`. */
    ghost predicate AtStep(names: seq<string>, k: nat)
      reads this
    {
      && Lists(dependencies, names)
      && pendingModules == Rest(dependencies, names, k)
      && currentModules == Loaded(dependencies, names, k)
      && steps == map j: nat | 0 <= j < k :: Layer(dependencies, names, j)
    }

    method ModulesThatCanBeLoaded() returns (modules: seq<string>)
      requires forall m :: m in pendingModules ==> m in dependencies
      ensures modules == Loadable(dependencies, pendingModules, currentModules)
    {
      modules := [];
      for i := 0 to |pendingModules|
        invariant modules == Loadable(dependencies, pendingModules[..i], currentModules)
      {
        var pendingModule := pendingModules[i];
        var canBeLoaded := true;
        var needed := dependencies[pendingModule];
        for j := 0 to |needed|
          invariant canBeLoaded <==> forall d :: d in needed[..j] ==> d in currentModules
        {
          assert needed[..j + 1] == needed[..j] + [needed[j]];
          if needed[j] !in currentModules {
            canBeLoaded := false;
            assert needed[j] in needed;
            break;
          }
        }
        assert needed[..|needed|] == needed;
        assert pendingModules[..i + 1][..i] == pendingModules[..i];
        if !canBeLoaded {
          continue;
        }
        modules := modules + [pendingModule];
      }
      assert pendingModules[..|pendingModules|] == pendingModules;
    }

    /** Moves the modules, one by one, from the pending list to the step and the loaded list. */
    method MoveModules(modules: seq<string>, k: nat)
      requires k in steps && steps[k] == []
      requires NoDup(pendingModules)
      modifies this
      ensures steps == old(steps)[k := modules]
      ensures currentModules == old(currentModules) + modules
      ensures pendingModules == Keep(old(pendingModules), y => y !in modules)
    {
      ghost var pending, earlier := pendingModules, steps;
      KeepEverything(pending);
      KeepSame(pending, y => true, y => y !in modules[..0]);
      for i := 0 to |modules|
        invariant k in steps && steps == earlier[k := modules[..i]]
        invariant currentModules == old(currentModules) + modules[..i]
        invariant pendingModules == Keep(pending, y => y !in modules[..i])
      {
        assert modules[..i + 1] == modules[..i] + [modules[i]];
        steps := steps[k := steps[k] + [modules[i]]];
        RemoveOne(pending, modules, i);
        pendingModules := Remove(pendingModules, modules[i]);
        currentModules := currentModules + [modules[i]];
      }
      assert modules[..|modules|] == modules;
    }

    /** One step: what can be loaded moves from the pending list to the loaded one. */
    method LoadStep(ghost names: seq<string>, k: nat)
      requires AtStep(names, k)
      modifies this
      ensures AtStep(names, k + 1)
    {
      hide Below, Within, Keep, Loadable;
      LoadableIsLayer(dependencies, names, k);
      KeepNoDup(names, m => !Below(dependencies, m, k));
      if k !in steps {
        steps := steps[k := []];
      }
      var modules := ModulesThatCanBeLoaded();
      MoveModules(modules, k);
      RestAfter(dependencies, names, k);
    }

    /** True when the recursion ends; false when it exhausts the interpreter's `frames`. */
    method DependencyOrder(ghost names: seq<string>, stepNumber: nat, frames: nat) returns (completed: bool)
      requires AtStep(names, stepNumber)
      modifies this
      ensures completed
              <==> exists k: nat :: stepNumber <= k < stepNumber + frames && Rest(dependencies, names, k) == []
      ensures completed ==> exists k: nat :: stepNumber <= k && AtStep(names, k) && pendingModules == []
      decreases frames
    {
      if frames == 0 {
        return false;
      }
      if |pendingModules| == 0 {
        assert AtStep(names, stepNumber);
        return true;
      }
      LoadStep(names, stepNumber);
      completed := DependencyOrder(names, stepNumber + 1, frames - 1);
    }

    /** The steps one after the other, in the order they were entered in the dictionary. */
    method Concatenate(ghost names: seq<string>, ghost k: nat) returns (sorted: seq<string>)
      requires AtStep(names, k)
      ensures sorted == Loaded(dependencies, names, k)
    {
      hide Lists, Within, Keep;
      sorted := [];
      var step := 0;
      while step in steps
        invariant 0 <= step <= k
        invariant sorted == Loaded(dependencies, names, step)
        decreases k - step
      {
        sorted := sorted + steps[step];
        step := step + 1;
      }
    }

    /** `sort_to_dependencies` once the dependency map is known. */
    method Sort(names: seq<string>, frames: nat) returns (completed: bool, sorted: seq<string>)
      requires Lists(dependencies, names)
      requires pendingModules == names && currentModules == [] && steps == map[]
      modifies this
      ensures completed <==> exists k: nat :: k < frames && Rest(dependencies, names, k) == []
      ensures frames > |dependencies| ==> (completed <==> Closed(dependencies) && Acyclic(dependencies))
      ensures completed ==>
                exists k: nat :: Rest(dependencies, names, k) == [] && sorted == Loaded(dependencies, names, k)
      ensures completed ==> multiset(sorted) == multiset(names) && DependenciesFirst(dependencies, sorted)
    {
      hide Closed, Acyclic, Lists, Within, Keep, Rest, Loaded, Layer, DependenciesFirst;
      CompletesIff(dependencies, names, frames);
      NothingLoadedYet(dependencies, names);
      NothingInNoStep(dependencies, names);
      completed := DependencyOrder(names, 0, frames);
      sorted := [];
      if completed {
        ghost var k: nat :| AtStep(names, k) && pendingModules == [];
        sorted := Concatenate(names, k);
        SortedIsDependencyOrder(dependencies, names, k);
      }
    }
  }

  lemma NothingInNoStep(deps: Dependencies, names: seq<string>)
    ensures Loaded(deps, names, 0) == []
  {
  }

  lemma RestAfter(deps: Dependencies, names: seq<string>, k: nat)
    ensures Keep(Rest(deps, names, k), y => y !in Layer(deps, names, k)) == Rest(deps, names, k + 1)
  {
    var layer := Layer(deps, names, k);
    var p, q := m => !Below(deps, m, k), y => y !in layer;
    KeepTwice(names, p, q);
    forall m | m in names
      ensures (p(m) && q(m)) == !Below(deps, m, k + 1)
    {
      KeepMembers(names, m => !Below(deps, m, k) && Within(deps, m, k), m);
      if Below(deps, m, k) {
        BelowMore(deps, m, k);
      }
    }
    KeepSame(names, x => p(x) && q(x), m => !Below(deps, m, k + 1));
  }

  // ---------------------------------------------------------------------------------------
  // What the order is
  // ---------------------------------------------------------------------------------------

  /** The step a library is loaded in is the length of its longest chain of dependencies. */
  lemma LayerIsLongestChain(deps: Dependencies, names: seq<string>, m: string, k: nat)
    requires Lists(deps, names)
    ensures m in Layer(deps, names, k)
            <==> ChainsWithin(deps, m, k) && exists c :: IsChain(deps, c) && c[0] == m && |c| - 1 == k
  {
    KeepMembers(names, m => !Below(deps, m, k) && Within(deps, m, k), m);
    WithinMeans(deps, m, k);
    if Within(deps, m, k) {
      assert m in names;
      if k == 0 {
        assert IsChain(deps, [m]);
      } else if !Within(deps, m, k - 1) {
        var c := LongChain(deps, m, k - 1);
        assert |c| - 1 <= k && c[|c| - 1] in deps;
      } else {
        WithinMeans(deps, m, k - 1);
      }
    }
  }

  lemma {:induction false} LoadedInOrder(deps: Dependencies, names: seq<string>, k: nat, i: nat, d: string)
    requires Lists(deps, names) && i < |Loaded(deps, names, k)|
    requires Loaded(deps, names, k)[i] in deps && d in deps[Loaded(deps, names, k)[i]]
    ensures exists j :: 0 <= j < i && Loaded(deps, names, k)[j] == d
    decreases k
  {
    var before, layer := Loaded(deps, names, k - 1), Layer(deps, names, k - 1);
    var all := Loaded(deps, names, k);
    assert all == before + layer;
    if i < |before| {
      LoadedInOrder(deps, names, k - 1, i, d);
      var j :| 0 <= j < i && before[j] == d;
      assert all[j] == d;
    } else {
      var m := all[i];
      assert m == layer[i - |before|];
      KeepMembers(names, m => !Below(deps, m, k - 1) && Within(deps, m, k - 1), m);
      assert k - 1 > 0 && Within(deps, d, k - 2);
      LoadedMembers(deps, names, k - 1, d);
      var j :| 0 <= j < |before| && before[j] == d;
      assert all[j] == d;
    }
  }

  /** What is pending splits into what the step loads and what stays pending. */
  lemma RestSplits(deps: Dependencies, names: seq<string>, k: nat)
    ensures multiset(Layer(deps, names, k)) + multiset(Rest(deps, names, k + 1)) == multiset(Rest(deps, names, k))
  {
    hide Below, Within;
    var p := m => !Below(deps, m, k);
    var q := m => Within(deps, m, k);
    KeepSplits(Rest(deps, names, k), q);
    KeepTwice(names, p, q);
    KeepTwice(names, p, x => !q(x));
    KeepSame(names, x => p(x) && q(x), m => !Below(deps, m, k) && Within(deps, m, k));
    forall m | m in names
      ensures (p(m) && !q(m)) == !Below(deps, m, k + 1)
    {
      if Below(deps, m, k) {
        BelowMore(deps, m, k);
      }
      BelowIsWithin(deps, m, k);
    }
    KeepSame(names, x => p(x) && (x => !q(x))(x), m => !Below(deps, m, k + 1));
  }

  lemma BelowIsWithin(deps: Dependencies, m: string, k: nat)
    ensures Below(deps, m, k + 1) <==> Within(deps, m, k)
  {
  }

  lemma {:induction false} LoadedPermutes(deps: Dependencies, names: seq<string>, k: nat)
    ensures multiset(Loaded(deps, names, k)) + multiset(Rest(deps, names, k)) == multiset(names)
  {
    hide Rest, Layer;
    if k == 0 {
      NothingLoadedYet(deps, names);
    } else {
      LoadedPermutes(deps, names, k - 1);
      RestSplits(deps, names, k - 1);
      assert multiset(Loaded(deps, names, k))
             == multiset(Loaded(deps, names, k - 1)) + multiset(Layer(deps, names, k - 1));
    }
  }

  lemma NothingLoadedYet(deps: Dependencies, names: seq<string>)
    ensures Rest(deps, names, 0) == names
  {
    KeepEverything(names);
    KeepSame(names, y => true, m => !Below(deps, m, 0));
  }

  lemma {:induction false} KeepSplits(s: seq<string>, q: string -> bool)
    ensures multiset(Keep(s, q)) + multiset(Keep(s, x => !q(x))) == multiset(s)
  {
    if s != [] {
      var a, l := s[..|s| - 1], s[|s| - 1];
      KeepSplits(a, q);
      assert s == a + [l];
      var yes, no := Keep(a, q), Keep(a, x => !q(x));
      assert multiset(a + [l]) == multiset(a) + multiset{l};
      if q(l) {
        assert Keep(s, q) == yes + [l] && Keep(s, x => !q(x)) == no;
      } else {
        assert Keep(s, q) == yes && Keep(s, x => !q(x)) == no + [l];
      }
    }
  }

  /** A completed sort is a permutation of the libraries in which every library comes strictly
      after each of its dependencies. */
  lemma SortedIsDependencyOrder(deps: Dependencies, names: seq<string>, k: nat)
    requires Lists(deps, names) && Rest(deps, names, k) == []
    ensures var sorted := Loaded(deps, names, k);
            multiset(sorted) == multiset(names) && DependenciesFirst(deps, sorted)
  {
    var sorted := Loaded(deps, names, k);
    LoadedPermutes(deps, names, k);
    forall i, d | 0 <= i < |sorted| && sorted[i] in deps && d in deps[sorted[i]]
      ensures exists j :: 0 <= j < i && sorted[j] == d
    {
      LoadedInOrder(deps, names, k, i, d);
    }
  }

  // ---------------------------------------------------------------------------------------
  // When the recursion ends
  // ---------------------------------------------------------------------------------------

  lemma RestEmptyMeans(deps: Dependencies, names: seq<string>, k: nat)
    requires Lists(deps, names)
    ensures Rest(deps, names, k) == [] <==> forall m :: m in deps ==> Below(deps, m, k)
  {
    if Rest(deps, names, k) == [] {
      forall m | m in deps
        ensures Below(deps, m, k)
      {
        KeepMembers(names, m => !Below(deps, m, k), m);
      }
    } else {
      var m := Rest(deps, names, k)[0];
      KeepMembers(names, m => !Below(deps, m, k), m);
    }
  }

  /** Progress: in a closed graph without cycles something can always be loaded. */
  lemma Progress(deps: Dependencies, names: seq<string>, k: nat)
    requires Lists(deps, names) && Closed(deps) && Acyclic(deps)
    requires Rest(deps, names, k) != []
    ensures Layer(deps, names, k) != []
  {
    var m := Rest(deps, names, k)[0];
    KeepMembers(names, m => !Below(deps, m, k), m);
    if Layer(deps, names, k) == [] {
      var c := EndlessChain(deps, names, m, k, |deps|);
      NoLongChain(deps, c);
    }
  }

  lemma WaitsFor(deps: Dependencies, names: seq<string>, m: string, k: nat) returns (d: string)
    requires Lists(deps, names) && Closed(deps)
    requires Layer(deps, names, k) == []
    requires m in deps && !Below(deps, m, k)
    ensures d in deps[m] && d in deps && !Below(deps, d, k)
  {
    KeepMembers(names, m => !Below(deps, m, k) && Within(deps, m, k), m);
    d :| d in deps[m] && !(k > 0 && Within(deps, d, k - 1));
  }

  /** Where every library that is not yet loaded waits for another, chains can be as long as
      one likes. */
  lemma {:induction false} EndlessChain(deps: Dependencies, names: seq<string>, m: string, k: nat, n: nat)
    returns (c: seq<string>)
    requires Lists(deps, names) && Closed(deps)
    requires Layer(deps, names, k) == []
    requires m in deps && !Below(deps, m, k)
    ensures IsChain(deps, c) && |c| == n + 1 && c[0] == m
    ensures forall i :: 0 <= i < |c| ==> c[i] in deps
    decreases n
  {
    hide Layer, Below, Lists, Closed;
    if n == 0 {
      c := [m];
    } else {
      var d := WaitsFor(deps, names, m, k);
      var rest := EndlessChain(deps, names, d, k, n - 1);
      c := [m] + rest;
    }
  }

  lemma SubChain(deps: Dependencies, c: seq<string>, i: nat, j: nat)
    requires IsChain(deps, c) && i < j < |c|
    ensures IsChain(deps, c[i..j + 1]) && c[i..j + 1][0] == c[i] && c[i..j + 1][j - i] == c[j]
  {
    var s := c[i..j + 1];
    forall k | 0 <= k < |s| - 1
      ensures s[k] in deps && s[k + 1] in deps[s[k]]
    {
      var l := i + k;
      assert c[l] in deps && c[l + 1] in deps[c[l]];
    }
  }

  /** Pigeonhole: without cycles a chain of libraries is no longer than there are libraries. */
  lemma NoLongChain(deps: Dependencies, c: seq<string>)
    requires Acyclic(deps) && IsChain(deps, c)
    requires forall i :: 0 <= i < |c| ==> c[i] in deps
    ensures |c| <= |deps|
  {
    forall i, j | 0 <= i < j < |c|
      ensures c[i] != c[j]
    {
      SubChain(deps, c, i, j);
    }
    DistinctFits(c, deps.Keys);
    assert |deps.Keys| == |deps|;
  }

  lemma {:induction false} DistinctFits(c: seq<string>, s: set<string>)
    requires NoDup(c) && forall i :: 0 <= i < |c| ==> c[i] in s
    ensures |c| <= |s|
    decreases |c|
  {
    if c != [] {
      DistinctFits(c[1..], s - {c[0]});
    }
  }

  lemma {:induction false} AcyclicIsWithin(deps: Dependencies)
    requires Closed(deps) && Acyclic(deps)
    ensures forall m :: m in deps ==> Below(deps, m, |deps|)
  {
    forall m | m in deps
      ensures Below(deps, m, |deps|)
    {
      assert |deps| > 0;
      forall c | IsChain(deps, c) && c[0] == m
        ensures |c| - 1 <= |deps| - 1 && c[|c| - 1] in deps
      {
        ChainStays(deps, c);
        NoLongChain(deps, c);
      }
      WithinMeans(deps, m, |deps| - 1);
    }
  }

  lemma ChainStays(deps: Dependencies, c: seq<string>)
    requires Closed(deps) && IsChain(deps, c) && c[0] in deps
    ensures forall i :: 0 <= i < |c| ==> c[i] in deps
  {
    forall i | 0 < i < |c|
      ensures c[i] in deps
    {
      var j := i - 1;
      assert c[j] in deps && c[j + 1] in deps[c[j]];
    }
  }

  lemma {:induction false} Around(deps: Dependencies, c: seq<string>, n: nat) returns (long: seq<string>)
    requires IsChain(deps, c) && |c| > 1 && c[0] == c[|c| - 1]
    ensures IsChain(deps, long) && |long| > n && long[0] == c[0]
    decreases n
  {
    if n == 0 {
      long := c;
    } else {
      var l := Around(deps, c, n - 1);
      long := c[..|c| - 1] + l;
      forall i | 0 <= i < |long| - 1
        ensures long[i] in deps && long[i + 1] in deps[long[i]]
      {
        if i < |c| - 1 {
          assert c[i] in deps && c[i + 1] in deps[c[i]];
          assert long[i] == c[i];
          assert long[i + 1] == c[i + 1];
        } else {
          var j := i - (|c| - 1);
          assert l[j] in deps && l[j + 1] in deps[l[j]];
          assert long[i] == l[j] && long[i + 1] == l[j + 1];
        }
      }
    }
  }

  lemma WithinIsAcyclic(deps: Dependencies, k: nat)
    requires forall m :: m in deps ==> Within(deps, m, k)
    ensures Closed(deps) && Acyclic(deps)
  {
    forall m, d | m in deps && d in deps[m]
      ensures d in deps
    {
      assert Within(deps, m, k);
      assert Within(deps, d, k - 1);
    }
    forall c | IsChain(deps, c) && |c| > 1
      ensures c[0] != c[|c| - 1]
    {
      if c[0] == c[|c| - 1] {
        assert c[0] in deps && c[0 + 1] in deps[c[0]];
        var long := Around(deps, c, k + 1);
        WithinMeans(deps, c[0], k);
        assert false;
      }
    }
  }

  /** Given a frame for each library and one more, the sort completes exactly when the graph is
      closed under dependencies and has no cycle; on any other graph no number of frames is
      enough. */
  lemma CompletesIff(deps: Dependencies, names: seq<string>, frames: nat)
    requires Lists(deps, names)
    ensures (exists k: nat :: k < frames && Rest(deps, names, k) == []) ==> Closed(deps) && Acyclic(deps)
    ensures Closed(deps) && Acyclic(deps) && frames > |deps| ==>
              exists k: nat :: k < frames && Rest(deps, names, k) == []
  {
    if k: nat :| k < frames && Rest(deps, names, k) == [] {
      RestEmptyMeans(deps, names, k);
      if k > 0 {
        WithinIsAcyclic(deps, k - 1);
      } else {
        assert forall m :: m !in deps;
        assert forall c :: IsChain(deps, c) && |c| > 1 ==> c[0] in deps;
      }
    }
    if Closed(deps) && Acyclic(deps) && frames > |deps| {
      AcyclicIsWithin(deps);
      RestEmptyMeans(deps, names, |deps|);
      assert |deps| < frames && Rest(deps, names, |deps|) == [];
    }
  }
}
