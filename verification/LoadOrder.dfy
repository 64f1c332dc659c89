/** Load ordering of extensions: a stable topological sort, with a cycle as its failure. */
module LoadOrder {
  import opened Counting
  import opened Options

  type Dependencies = map<string, seq<string>>

  /** Every selected extension has distinct dependencies, all selected and none itself. */
  ghost predicate Graph(selected: seq<string>, deps: Dependencies) {
    && Distinct(selected)
    && (forall x :: x in selected <==> x in deps)
    && (forall x :: x in deps ==> Distinct(deps[x]) && x !in deps[x])
    && (forall x, d :: x in deps && d in deps[x] ==> d in deps)
  }

  /** The index of `x` in the selection. */
  function Position(selected: seq<string>, x: string): (p: nat)
    requires x in selected
    ensures p < |selected| && selected[p] == x
  {
    if selected[0] == x then 0 else 1 + Position(selected[1..], x)
  }

  lemma PositionIsUnique(selected: seq<string>, p: nat)
    requires Distinct(selected) && p < |selected|
    ensures Position(selected, selected[p]) == p
  {
  }

  /** All dependencies of `x` are done and `x` itself is not. */
  predicate Ready(deps: Dependencies, done: seq<string>, x: string) {
    x in deps && x !in done && forall i :: 0 <= i < |deps[x]| ==> deps[x][i] in done
  }

  /** A load order: a permutation of the selection with dependencies first. */
  ghost predicate Topological(selected: seq<string>, deps: Dependencies, order: seq<string>)
    requires Graph(selected, deps)
  {
    && |order| == |selected| && Distinct(order)
    && (forall k :: 0 <= k < |order| ==> Ready(deps, order[..k], order[k]))
  }

  /** Each entry is the ready extension that stands first in the selection. */
  ghost predicate Greedy(selected: seq<string>, deps: Dependencies, order: seq<string>)
    requires Graph(selected, deps)
  {
    forall k :: 0 <= k < |order| ==>
                  && Ready(deps, order[..k], order[k])
                  && forall y :: Ready(deps, order[..k], y) ==> Position(selected, order[k]) <= Position(selected, y)
  }

  /** `order` precedes every other load order, comparing positions from the left. */
  ghost predicate LexicographicallyLeast(selected: seq<string>, deps: Dependencies, order: seq<string>)
    requires Graph(selected, deps)
  {
    && Topological(selected, deps, order)
    && forall other :: Topological(selected, deps, other) && other != order ==> EarlierThan(selected, deps, order, other)
  }

  ghost predicate EarlierThan(selected: seq<string>, deps: Dependencies, order: seq<string>, other: seq<string>)
    requires Graph(selected, deps) && Topological(selected, deps, order) && Topological(selected, deps, other)
  {
    exists k :: 0 <= k < |order| && order[..k] == other[..k] && Position(selected, order[k]) < Position(selected, other[k])
  }

  /** A closed walk along dependencies. */
  predicate IsCycle(deps: Dependencies, c: seq<string>) {
    && |c| >= 2 && c[0] == c[|c| - 1]
    && forall i :: 0 <= i < |c| - 1 ==> c[i] in deps && c[i + 1] in deps[c[i]]
  }

  // ----- Facts about orders -----

  lemma GreedyDistinct(selected: seq<string>, deps: Dependencies, order: seq<string>)
    requires Graph(selected, deps) && Greedy(selected, deps, order)
    ensures Distinct(order) && forall k :: 0 <= k < |order| ==> order[k] in selected
  {
    forall i, j | 0 <= i < j < |order|
      ensures order[i] != order[j]
    {
      assert order[..j][i] == order[i];
    }
  }

  /** Where two load orders first differ, the greedy one has the earlier extension. */
  lemma {:induction false} FirstDifference(selected: seq<string>, deps: Dependencies, order: seq<string>, other: seq<string>, k: nat)
    requires Graph(selected, deps) && Greedy(selected, deps, order)
    requires Topological(selected, deps, order) && Topological(selected, deps, other)
    requires k <= |order| && order[..k] == other[..k] && order != other
    ensures EarlierThan(selected, deps, order, other)
    decreases |order| - k
  {
    hide Position, Ready, Greedy;
    assert order[..|order|] == order && other[..|other|] == other;
    if order[k] == other[k] {
      assert order[..k + 1] == order[..k] + [order[k]] == other[..k + 1];
      FirstDifference(selected, deps, order, other, k + 1);
    } else {
      DifferenceDecides(selected, deps, order, other, k);
    }
  }

  lemma DifferenceDecides(selected: seq<string>, deps: Dependencies, order: seq<string>, other: seq<string>, k: nat)
    requires Graph(selected, deps) && Greedy(selected, deps, order)
    requires Topological(selected, deps, order) && Topological(selected, deps, other)
    requires k < |order| && order[..k] == other[..k] && order[k] != other[k]
    ensures order[k] in selected && other[k] in selected
    ensures Position(selected, order[k]) < Position(selected, other[k])
  {
    hide Position;
    assert Ready(deps, order[..k], order[k]);
    assert Ready(deps, other[..k], other[k]);
    assert selected[Position(selected, order[k])] == order[k];
    assert selected[Position(selected, other[k])] == other[k];
  }

  lemma GreedyIsLeast(selected: seq<string>, deps: Dependencies, order: seq<string>)
    requires Graph(selected, deps) && Greedy(selected, deps, order) && |order| == |selected|
    ensures LexicographicallyLeast(selected, deps, order)
  {
    GreedyDistinct(selected, deps, order);
    forall other | Topological(selected, deps, other) && other != order
      ensures EarlierThan(selected, deps, order, other)
    {
      FirstDifference(selected, deps, order, other, 0);
    }
  }

  /** A load order is a permutation of the selection. */
  lemma OrderCoversSelection(selected: seq<string>, deps: Dependencies, order: seq<string>)
    requires Graph(selected, deps) && Topological(selected, deps, order)
    ensures multiset(order) == multiset(selected)
    ensures forall x :: x in selected <==> x in order
  {
    assert forall x :: x in order ==> x in selected;
    CoverByCount(order, selected);
    forall x
      ensures multiset(order)[x] == multiset(selected)[x]
    {
      CountOfDistinct(order, x);
      CountOfDistinct(selected, x);
    }
  }

  /** Distinct members of a sequence that are as many as the sequence are all of it. */
  lemma CoverByCount(a: seq<string>, b: seq<string>)
    requires Distinct(a) && Distinct(b) && |a| == |b| && (forall x :: x in a ==> x in b)
    ensures forall x :: x in b ==> x in a
  {
    var sa, sb := set x | x in a, set x | x in b;
    SizeOfDistinct(a);
    SizeOfDistinct(b);
    SizeOfSubset(sa, sb);
    assert forall x :: x in b ==> x in sb;
  }

  /** If a load order exists, a set closed so far always leaves something ready. */
  lemma {:induction false} SomethingIsReady(selected: seq<string>, deps: Dependencies, done: seq<string>, order: seq<string>, k: nat) returns (x: string)
    requires Graph(selected, deps) && Topological(selected, deps, order)
    requires k <= |order| && (forall i :: 0 <= i < k ==> order[i] in done)
    requires exists y :: y in selected && y !in done
    ensures Ready(deps, done, x)
    decreases |order| - k
  {
    OrderCoversSelection(selected, deps, order);
    if k == |order| {
      assert false;
    } else if order[k] in done {
      x := SomethingIsReady(selected, deps, done, order, k + 1);
    } else {
      x := order[k];
      assert Ready(deps, order[..k], x);
      forall i | 0 <= i < |deps[x]|
        ensures deps[x][i] in done
      {
        assert deps[x][i] in order[..k];
      }
    }
  }

  /** A stuck sort proves that no load order exists. */
  lemma StuckMeansNoOrder(selected: seq<string>, deps: Dependencies, done: seq<string>, order: seq<string>)
    requires Graph(selected, deps) && Greedy(selected, deps, done) && |done| < |selected|
    requires forall x :: !Ready(deps, done, x)
    ensures !Topological(selected, deps, order)
  {
    if Topological(selected, deps, order) {
      GreedyDistinct(selected, deps, done);
      if forall y :: y in selected ==> y in done {
        CountsBound(selected, done);
      }
      var x := SomethingIsReady(selected, deps, done, order, 0);
    }
  }

  lemma CountsBound(a: seq<string>, b: seq<string>)
    requires Distinct(a) && Distinct(b) && (forall x :: x in a ==> x in b)
    ensures |a| <= |b|
  {
    SizeOfDistinct(a);
    SizeOfDistinct(b);
    SizeOfSubset((set x | x in a), (set x | x in b));
  }

  /** Along a cycle positions in a load order would fall for ever. */
  lemma {:induction false} CycleFalls(selected: seq<string>, deps: Dependencies, order: seq<string>, c: seq<string>, i: nat)
    requires Graph(selected, deps) && Topological(selected, deps, order) && IsCycle(deps, c) && i < |c|
    ensures c[i] in order && c[0] in order
    ensures i > 0 ==> Position(order, c[i]) < Position(order, c[0])
  {
    OrderCoversSelection(selected, deps, order);
    if i > 0 {
      CycleFalls(selected, deps, order, c, i - 1);
      var x, d := c[i - 1], c[i];
      var p := Position(order, x);
      assert Ready(deps, order[..p], order[p]);
      assert d in order[..p];
      var q :| 0 <= q < p && order[..p][q] == d;
      PositionIsUnique(order, q);
    } else {
      assert c[0] in deps;
    }
  }

  /** A cyclic graph has no load order. */
  lemma CycleMeansNoOrder(selected: seq<string>, deps: Dependencies, order: seq<string>, c: seq<string>)
    requires Graph(selected, deps) && IsCycle(deps, c)
    ensures !Topological(selected, deps, order)
  {
    if Topological(selected, deps, order) {
      CycleFalls(selected, deps, order, c, |c| - 1);
    }
  }

  /** An extension without dependencies at the head of the selection is loaded first. */
  lemma HeadLoadsFirst(selected: seq<string>, deps: Dependencies, order: seq<string>)
    requires Graph(selected, deps) && Greedy(selected, deps, order) && order != []
    requires selected != [] && deps[selected[0]] == []
    ensures order[0] == selected[0]
  {
    assert Ready(deps, order[..0], selected[0]);
    PositionIsUnique(selected, 0);
    assert selected[Position(selected, order[0])] == order[0];
  }

  // ----- The depth-first cycle search -----

  /** Finished extensions in the order of completion: dependencies come earlier. */
  ghost predicate FinishedOrder(deps: Dependencies, finished: seq<string>) {
    && Distinct(finished)
    && forall k :: 0 <= k < |finished| ==> Ready(deps, finished[..k], finished[k])
  }

  /** A chain in which each extension depends on the next. */
  ghost predicate Chain(deps: Dependencies, path: seq<string>) {
    && (forall i :: 0 <= i < |path| ==> path[i] in deps)
    && (forall i :: 0 <= i < |path| - 1 ==> path[i + 1] in deps[path[i]])
  }

  class CycleFinder {
    const deps: Dependencies
    var visiting: set<string>
    var visited: set<string>
    var path: seq<string>
    ghost var finished: seq<string>

    ghost predicate Valid()
      reads this
    {
      && (forall x, d :: x in deps && d in deps[x] ==> d in deps)
      && visited <= deps.Keys && visiting !! visited
      && Distinct(path) && Chain(deps, path)
      && (forall x :: x in visiting <==> x in path)
      && (forall x :: x in visited <==> x in finished)
      && FinishedOrder(deps, finished)
    }

    constructor (deps: Dependencies)
      requires forall x, d :: x in deps && d in deps[x] ==> d in deps
      ensures Valid() && this.deps == deps && path == [] && visited == {}
    {
      this.deps := deps;
      visiting, visited, path, finished := {}, {}, [], [];
    }

    method Visit(identifier: string) returns (cycle: Option<seq<string>>)
      requires Valid() && identifier in deps
      requires path != [] ==> identifier in deps[path[|path| - 1]]
      modifies this
      ensures cycle.Some? ==> IsCycle(deps, cycle.value)
      ensures cycle.None? ==>
                && Valid() && path == old(path) && visiting == old(visiting)
                && old(visited) <= visited && identifier in visited
      decreases deps.Keys - visiting - visited
    {
      hide FinishedOrder;
      if identifier in visiting {
        var start := Position(path, identifier);
        ClosedWalk(deps, path, start);
        cycle := Some(path[start..] + [identifier]);
        return;
      }
      if identifier in visited { return None; }

      assert identifier in deps.Keys - visiting - visited;
      Enter(identifier);
      hide Distinct, Chain;
      var dependencies := deps[identifier];
      var i := 0;
      while i < |dependencies|
        invariant i <= |dependencies| && Valid()
        invariant path == old(path) + [identifier] && visiting == old(visiting) + {identifier}
        invariant old(visited) <= visited && identifier !in visited
        invariant forall j :: 0 <= j < i ==> dependencies[j] in visited
      {
        cycle := Visit(dependencies[i]);
        if cycle.Some? { return; }
        i := i + 1;
      }
      Leave(identifier);
      assert path == old(path);
      cycle := None;
    }

    method Enter(identifier: string)
      requires Valid() && identifier in deps && identifier !in visiting && identifier !in visited
      requires path != [] ==> identifier in deps[path[|path| - 1]]
      modifies this
      ensures Valid() && path == old(path) + [identifier] && visiting == old(visiting) + {identifier} && visited == old(visited)
    {
      hide FinishedOrder;
      visiting := visiting + {identifier};
      path := path + [identifier];
    }

    /** The end of a visit: everything below the extension is finished. */
    method Leave(identifier: string)
      requires Valid() && identifier in deps && path != [] && path[|path| - 1] == identifier && identifier !in visited
      requires forall j :: 0 <= j < |deps[identifier]| ==> deps[identifier][j] in visited
      modifies this
      ensures Valid() && path == old(path)[..|old(path)| - 1] && visiting == old(visiting) - {identifier}
      ensures visited == old(visited) + {identifier}
    {
      finished := Finish(deps, finished, identifier);
      hide FinishedOrder, Ready;
      path := path[..|path| - 1];
      visiting := visiting - {identifier};
      visited := visited + {identifier};
    }
  }

  /** A chain whose last entry depends on an earlier one closes a cycle. */
  lemma ClosedWalk(deps: Dependencies, path: seq<string>, start: nat)
    requires Chain(deps, path) && start < |path| && path[start] in deps[path[|path| - 1]]
    ensures IsCycle(deps, path[start..] + [path[start]])
  {
  }

  /** Completing one more extension whose dependencies are all finished. */
  ghost function Finish(deps: Dependencies, finished: seq<string>, x: string): (more: seq<string>)
    requires FinishedOrder(deps, finished) && Ready(deps, finished, x)
    ensures FinishedOrder(deps, more) && forall y :: y in more <==> y in finished || y == x
  {
    var more := finished + [x];
    assert forall k :: 0 <= k < |finished| ==> more[..k] == finished[..k];
    assert more[..|finished|] == finished;
    more
  }

  /** `_find_dependency_cycle`: it finds a cycle exactly if no load order exists. */
  method FindDependencyCycle(selected: seq<string>, deps: Dependencies) returns (cycle: Option<seq<string>>)
    requires Graph(selected, deps)
    ensures cycle.Some? ==> IsCycle(deps, cycle.value)
    ensures cycle.None? <==> exists order :: Topological(selected, deps, order)
  {
    var finder := new CycleFinder(deps);
    var i := 0;
    while i < |selected|
      invariant i <= |selected| && finder.Valid() && finder.deps == deps && finder.path == [] && fresh(finder)
      invariant forall j :: 0 <= j < i ==> selected[j] in finder.visited
    {
      cycle := finder.Visit(selected[i]);
      if cycle.Some? {
        forall order
          ensures !Topological(selected, deps, order)
        {
          CycleMeansNoOrder(selected, deps, order, cycle.value);
        }
        return;
      }
      i := i + 1;
    }
    FinishedIsOrder(selected, deps, finder.finished);
    cycle := None;
  }

  lemma FinishedIsOrder(selected: seq<string>, deps: Dependencies, finished: seq<string>)
    requires Graph(selected, deps) && FinishedOrder(deps, finished)
    requires forall x :: x in selected ==> x in finished
    ensures Topological(selected, deps, finished)
  {
    CountsBound(selected, finished);
    assert forall k :: 0 <= k < |finished| ==> finished[k] in selected;
    CountsBound(finished, selected);
  }

  // ----- The stable sort -----

  /** How many of the dependencies are not done. */
  function Unmet(ds: seq<string>, done: seq<string>): nat {
    if ds == [] then 0 else (if ds[0] in done then 0 else 1) + Unmet(ds[1..], done)
  }

  lemma {:induction false} UnmetZero(ds: seq<string>, done: seq<string>)
    ensures Unmet(ds, done) == 0 <==> forall i :: 0 <= i < |ds| ==> ds[i] in done
  {
    if ds != [] {
      UnmetZero(ds[1..], done);
      assert ds == [ds[0]] + ds[1..];
    }
  }

  lemma {:induction false} UnmetStep(ds: seq<string>, done: seq<string>, x: string)
    requires Distinct(ds) && x !in done
    ensures Unmet(ds, done + [x]) == Unmet(ds, done) - (if x in ds then 1 else 0)
  {
    if ds != [] {
      UnmetStep(ds[1..], done, x);
      assert ds == [ds[0]] + ds[1..];
    }
  }

  lemma {:induction false} UnmetAll(ds: seq<string>)
    ensures Unmet(ds, []) == |ds|
  {
    if ds != [] {
      UnmetAll(ds[1..]);
    }
  }

  /** `ready` holds exactly the extensions that could be loaded next, each once. */
  ghost predicate IsReadyList(deps: Dependencies, done: seq<string>, ready: seq<string>) {
    Distinct(ready) && forall x :: x in ready <==> Ready(deps, done, x)
  }

  ghost predicate IsDependents(deps: Dependencies, dependents: map<string, seq<string>>) {
    && dependents.Keys == deps.Keys
    && (forall d :: d in dependents ==> Distinct(dependents[d]))
    && (forall d, x :: d in dependents ==> (x in dependents[d] <==> x in deps && d in deps[x]))
  }

  ghost predicate IsIndegree(deps: Dependencies, done: seq<string>, indegree: map<string, int>) {
    indegree.Keys == deps.Keys && forall x :: x in deps ==> indegree[x] == Unmet(deps[x], done)
  }

  /** Sorting the ready list by selection position and taking its head. */
  method PopFirst(selected: seq<string>, ready: seq<string>) returns (first: string, rest: seq<string>)
    requires ready != [] && Distinct(ready) && (forall x :: x in ready ==> x in selected)
    ensures first in ready && Distinct(rest) && (forall x :: x in rest <==> x in ready && x != first)
    ensures forall x :: x in ready ==> Position(selected, first) <= Position(selected, x)
    ensures |rest| == |ready| - 1
  {
    var best := 0;
    for i := 1 to |ready|
      invariant best < i
      invariant forall k :: 0 <= k < i ==> Position(selected, ready[best]) <= Position(selected, ready[k])
    {
      if Position(selected, ready[i]) < Position(selected, ready[best]) {
        best := i;
      }
    }
    first := ready[best];
    rest := ready[..best] + ready[best + 1..];
    assert ready == ready[..best] + [first] + ready[best + 1..];
  }

  lemma ReadyIsNode(deps: Dependencies, done: seq<string>, x: string)
    requires Ready(deps, done, x)
    ensures x in deps && x !in done
  {
  }

  lemma ReadyDoesNotWait(deps: Dependencies, done: seq<string>, x: string, y: string)
    requires Ready(deps, done, y) && x !in done
    ensures y in deps && x !in deps[y]
  {
  }

  /** Resolving `x` makes ready what was ready before and what had only `x` left to wait for. */
  lemma ReadyAfter(deps: Dependencies, done: seq<string>, x: string, y: string)
    requires Ready(deps, done, x) && y in deps && Distinct(deps[y]) && x !in deps[x]
    requires y in done ==> Unmet(deps[y], done) == 0
    ensures Unmet(deps[y], done + [x]) == Unmet(deps[y], done) - (if x in deps[y] then 1 else 0)
    ensures Ready(deps, done + [x], y) <==>
            (Ready(deps, done, y) && y != x) || (x in deps[y] && Unmet(deps[y], done) == 1)
  {
    UnmetStep(deps[y], done, x);
    UnmetZero(deps[y], done);
    UnmetZero(deps[y], done + [x]);
  }

  /** The bookkeeping after `x` is resolved: its dependents lose one open dependency each. */
  method Resolve(deps: Dependencies, dependents: map<string, seq<string>>, indegree: map<string, int>, done: seq<string>, x: string, ready: seq<string>)
    returns (indegree': map<string, int>, ready': seq<string>)
    requires IsDependents(deps, dependents) && IsIndegree(deps, done, indegree)
    requires Ready(deps, done, x) && Distinct(ready) && (forall y :: y in ready <==> Ready(deps, done, y) && y != x)
    requires forall y :: y in deps ==> Distinct(deps[y]) && y !in deps[y]
    requires forall y :: y in done && y in deps ==> Unmet(deps[y], done) == 0
    ensures IsIndegree(deps, done + [x], indegree') && IsReadyList(deps, done + [x], ready')
  {
    hide Ready, Unmet;
    indegree', ready' := indegree, ready;
    ReadyIsNode(deps, done, x);
    forall y | y in ready
      ensures y in deps && x !in deps[y]
    {
      ReadyDoesNotWait(deps, done, x, y);
    }
    var list := dependents[x];
    ghost var added: seq<string> := [];
    var i := 0;
    while i < |list|
      invariant i <= |list| && indegree'.Keys == deps.Keys
      invariant forall y :: y in deps ==> indegree'[y] == if y in list[..i] then indegree[y] - 1 else indegree[y]
      invariant Distinct(ready')
      invariant forall y :: y in ready' <==> y in ready || (y in list[..i] && indegree[y] == 1)
    {
      var dependent := list[i];
      assert dependent !in list[..i];
      assert list[..i + 1] == list[..i] + [dependent];
      indegree' := indegree'[dependent := indegree'[dependent] - 1];
      if indegree'[dependent] == 0 {
        ready' := ready' + [dependent];
      }
      i := i + 1;
    }
    assert list[..i] == list;
    forall y | y in deps
      ensures indegree'[y] == Unmet(deps[y], done + [x])
      ensures y in ready' <==> Ready(deps, done + [x], y)
    {
      ReadyAfter(deps, done, x, y);
    }
    forall y | Ready(deps, done + [x], y)
      ensures y in deps
    {
      ReadyIsNode(deps, done + [x], y);
    }
    assert forall y :: y in ready' ==> y in deps;
  }

  datatype LoadResult = Ordered(order: seq<string>) | CycleDetected(cycle: seq<string>)

  /** The sorting loop of `_resolve_extension_load_order` on a validated selection. */
  method SortExtensions(selected: seq<string>, deps: Dependencies, dependents: map<string, seq<string>>) returns (r: LoadResult)
    requires Graph(selected, deps) && IsDependents(deps, dependents)
    ensures r.Ordered? <==> exists order :: Topological(selected, deps, order)
    ensures r.Ordered? ==> Greedy(selected, deps, r.order) && LexicographicallyLeast(selected, deps, r.order)
    ensures r.CycleDetected? ==> IsCycle(deps, r.cycle)
  {
    var indegree: map<string, int> := map x | x in deps :: |deps[x]|;
    forall x | x in deps
      ensures Unmet(deps[x], []) == |deps[x]|
    {
      UnmetAll(deps[x]);
    }
    var ready := InitialReady(selected, deps);
    var resolved: seq<string> := [];
    while ready != []
      invariant IsIndegree(deps, resolved, indegree) && IsReadyList(deps, resolved, ready)
      invariant Greedy(selected, deps, resolved)
      invariant |resolved| <= |selected|
      decreases |selected| - |resolved|
    {
      var identifier, rest := PopFirst(selected, ready);
      GreedyClosed(selected, deps, resolved);
      indegree, ready := Resolve(deps, dependents, indegree, resolved, identifier, rest);
      GreedyGrows(selected, deps, resolved, identifier);
      resolved := resolved + [identifier];
      GreedyDistinct(selected, deps, resolved);
      CountsBound(resolved, selected);
    }
    assert forall x :: !Ready(deps, resolved, x);
    if |resolved| != |selected| {
      forall order
        ensures !Topological(selected, deps, order)
      {
        StuckMeansNoOrder(selected, deps, resolved, order);
      }
      var cycle := FindDependencyCycle(selected, deps);
      return CycleDetected(cycle.value);
    }
    GreedyIsLeast(selected, deps, resolved);
    r := Ordered(resolved);
  }

  /** Everything resolved has all its dependencies resolved. */
  lemma GreedyClosed(selected: seq<string>, deps: Dependencies, order: seq<string>)
    requires Graph(selected, deps) && Greedy(selected, deps, order)
    ensures forall y :: y in order && y in deps ==> Unmet(deps[y], order) == 0
  {
    forall y | y in order && y in deps
      ensures Unmet(deps[y], order) == 0
    {
      var k :| 0 <= k < |order| && order[k] == y;
      assert Ready(deps, order[..k], order[k]);
      forall i | 0 <= i < |deps[y]|
        ensures deps[y][i] in order
      {
        assert deps[y][i] in order[..k];
      }
      UnmetZero(deps[y], order);
    }
  }

  lemma GreedyGrows(selected: seq<string>, deps: Dependencies, order: seq<string>, x: string)
    requires Graph(selected, deps) && Greedy(selected, deps, order) && Ready(deps, order, x)
    requires forall y :: Ready(deps, order, y) ==> Position(selected, x) <= Position(selected, y)
    ensures Greedy(selected, deps, order + [x])
  {
    var more := order + [x];
    assert forall k :: 0 <= k < |order| ==> more[..k] == order[..k];
    assert more[..|order|] == order;
  }

  /** Extensions without dependencies, in selection order. */
  method InitialReady(selected: seq<string>, deps: Dependencies) returns (ready: seq<string>)
    requires Graph(selected, deps)
    ensures IsReadyList(deps, [], ready)
  {
    ready := [];
    for i := 0 to |selected|
      invariant Distinct(ready)
      invariant forall x :: x in ready <==> x in selected[..i] && |deps[x]| == 0
    {
      assert selected[i] !in selected[..i];
      assert selected[..i + 1] == selected[..i] + [selected[i]];
      if |deps[selected[i]]| == 0 {
        ready := ready + [selected[i]];
      }
    }
    assert selected[..|selected|] == selected;
    forall x | x in deps
      ensures Ready(deps, [], x) <==> |deps[x]| == 0
    {
      if |deps[x]| > 0 { assert deps[x][0] !in []; }
    }
  }

  // ----- Validation of a selection -----

  /** A declared dependency with its minimum version. */
  datatype Requirement = Requirement(extension: string, minimum: int)

  /** Versions are compared as numbers; an unparsable installed version is `None`. */
  datatype Manifest = Manifest(version: Option<int>, requirements: seq<Requirement>, minimumServer: Option<int>)

  type Catalog = map<string, Manifest>

  const BUILTIN := "builtin"

  datatype SelectionError =
    | NoBuiltin | DuplicateEnabled | BuiltinConfigured | NotFound(extensions: seq<string>)
    | BuiltinDepends | DependsOnItself(extension: string)
    | NotInstalled(extension: string, dependency: string) | NotEnabled(extension: string, dependency: string)
    | InvalidVersion(extension: string) | TooOld(extension: string, dependency: string)
    | Cyclic(cycle: seq<string>) | ServerTooOld(extension: string)

  datatype Selection = Resolved(order: seq<string>) | Failed(error: SelectionError)

  function Names(requirements: seq<Requirement>): (names: seq<string>)
    ensures |names| == |requirements|
  {
    seq(|requirements|, i requires 0 <= i < |requirements| => requirements[i].extension)
  }

  /** A manifest maps each dependency to one minimum version. */
  ghost predicate WellFormedCatalog(catalog: Catalog) {
    forall x :: x in catalog ==> Distinct(Names(catalog[x].requirements))
  }

  predicate Satisfied(catalog: Catalog, selected: seq<string>, requirement: Requirement) {
    && requirement.extension in catalog && requirement.extension in selected
    && catalog[requirement.extension].version.Some?
    && requirement.minimum <= catalog[requirement.extension].version.value
  }

  /** What the validation demands of one selected extension. */
  ghost predicate Acceptable(catalog: Catalog, selected: seq<string>, x: string)
    requires x in catalog
  {
    && (x == BUILTIN ==> catalog[x].requirements == [])
    && x !in Names(catalog[x].requirements)
    && forall i :: 0 <= i < |catalog[x].requirements| ==> Satisfied(catalog, selected, catalog[x].requirements[i])
  }

  /** The error for one requirement that is not satisfied. */
  predicate RequirementFails(catalog: Catalog, selected: seq<string>, x: string, requirement: Requirement, error: SelectionError) {
    var dependency := requirement.extension;
    match error
    case NotInstalled(y, d) => y == x && d == dependency && dependency !in catalog
    case NotEnabled(y, d) => y == x && d == dependency && dependency in catalog && dependency !in selected
    case InvalidVersion(d) => d == dependency && dependency in catalog && dependency in selected && catalog[dependency].version.None?
    case TooOld(y, d) =>
      && y == x && d == dependency && dependency in catalog && dependency in selected
      && catalog[dependency].version.Some? && catalog[dependency].version.value < requirement.minimum
    case _ => false
  }

  /** The error for one extension: about itself, else about the first requirement that fails. */
  ghost predicate ExtensionFails(catalog: Catalog, selected: seq<string>, x: string, error: SelectionError)
    requires x in catalog
  {
    var requirements := catalog[x].requirements;
    if x == BUILTIN && requirements != [] then error == BuiltinDepends
    else if x in Names(requirements) then error == DependsOnItself(x)
    else exists i ::
      && 0 <= i < |requirements| && RequirementFails(catalog, selected, x, requirements[i], error)
      && forall k :: 0 <= k < i ==> Satisfied(catalog, selected, requirements[k])
  }

  /** The error for a selection: that of its first extension that is not acceptable. */
  ghost predicate SelectionFails(catalog: Catalog, selected: seq<string>, error: SelectionError)
    requires forall x :: x in selected ==> x in catalog
  {
    exists i ::
      && 0 <= i < |selected| && ExtensionFails(catalog, selected, selected[i], error)
      && forall k :: 0 <= k < i ==> Acceptable(catalog, selected, selected[k])
  }

  /** The enabled extensions that are not in the catalog. */
  function Missing(catalog: Catalog, enabled: seq<string>): seq<string> {
    if enabled == [] then []
    else Missing(catalog, enabled[..|enabled| - 1]) + if enabled[|enabled| - 1] in catalog then [] else [enabled[|enabled| - 1]]
  }

  lemma {:induction false} MissingExactly(catalog: Catalog, enabled: seq<string>)
    ensures forall x :: x in Missing(catalog, enabled) <==> x in enabled && x !in catalog
  {
    if enabled != [] {
      MissingExactly(catalog, enabled[..|enabled| - 1]);
      assert enabled == enabled[..|enabled| - 1] + [enabled[|enabled| - 1]];
    }
  }

  /** One declared dependency: installed, enabled, and recent enough. */
  method CheckRequirement(catalog: Catalog, selected: seq<string>, x: string, requirement: Requirement) returns (error: Option<SelectionError>)
    ensures error.None? <==> Satisfied(catalog, selected, requirement)
    ensures error.Some? ==> RequirementFails(catalog, selected, x, requirement, error.value)
  {
    var dependency := requirement.extension;
    if dependency !in catalog { return Some(NotInstalled(x, dependency)); }
    if dependency !in selected { return Some(NotEnabled(x, dependency)); }
    if catalog[dependency].version.None? { return Some(InvalidVersion(dependency)); }
    if catalog[dependency].version.value < requirement.minimum { return Some(TooOld(x, dependency)); }
    error := None;
  }

  /** The requirements of one extension, registering it with its dependencies. */
  method ValidateExtension(catalog: Catalog, selected: seq<string>, x: string, dependents: map<string, seq<string>>)
    returns (error: Option<SelectionError>, after: map<string, seq<string>>)
    requires x in catalog && Distinct(Names(catalog[x].requirements)) && (forall y :: y in dependents <==> y in selected)
    ensures error.None? <==> Acceptable(catalog, selected, x)
    ensures error.Some? ==> ExtensionFails(catalog, selected, x, error.value)
    ensures after.Keys == dependents.Keys
    ensures error.None? ==>
              forall d :: d in after ==> after[d] == if d in Names(catalog[x].requirements) then dependents[d] + [x] else dependents[d]
  {
    after := dependents;
    var requirements := catalog[x].requirements;
    var names := Names(requirements);
    if x == BUILTIN && requirements != [] { return Some(BuiltinDepends), after; }
    if x in names { return Some(DependsOnItself(x)), after; }
    for i := 0 to |requirements|
      invariant after.Keys == dependents.Keys
      invariant forall k :: 0 <= k < i ==> Satisfied(catalog, selected, requirements[k])
      invariant forall d :: d in after ==> after[d] == if d in names[..i] then dependents[d] + [x] else dependents[d]
    {
      error := CheckRequirement(catalog, selected, x, requirements[i]);
      if error.Some? { return; }
      var dependency := requirements[i].extension;
      assert dependency in after;
      hide Satisfied;
      assert names[i] == dependency && names[..i + 1] == names[..i] + [dependency];
      assert dependency !in names[..i];
      after := after[dependency := after[dependency] + [x]];
    }
    assert names[..|requirements|] == names;
    error := None;
  }

  /** The dependents lists agree with the dependencies registered so far. */
  ghost predicate Registered(deps: Dependencies, dependents: map<string, seq<string>>) {
    && (forall d :: d in dependents ==> Distinct(dependents[d]))
    && (forall d, x :: d in dependents ==> (x in dependents[d] <==> x in deps && d in deps[x]))
  }

  lemma RegisterStep(deps: Dependencies, before: map<string, seq<string>>, after: map<string, seq<string>>, x: string, names: seq<string>)
    requires Registered(deps, before) && x !in deps && after.Keys == before.Keys
    requires forall d :: d in after ==> after[d] == if d in names then before[d] + [x] else before[d]
    ensures Registered(deps[x := names], after)
  {
    forall d | d in after
      ensures Distinct(after[d]) && forall y :: y in after[d] <==> y in deps[x := names] && d in deps[x := names][y]
    {
      assert x !in before[d];
    }
  }

  /** The validation loop of `_resolve_extension_load_order`. */
  method Validate(catalog: Catalog, selected: seq<string>)
    returns (error: Option<SelectionError>, deps: Dependencies, dependents: map<string, seq<string>>)
    requires WellFormedCatalog(catalog) && Distinct(selected) && (forall x :: x in selected ==> x in catalog)
    ensures error.None? <==> forall x :: x in selected ==> Acceptable(catalog, selected, x)
    ensures error.Some? ==> SelectionFails(catalog, selected, error.value)
    ensures error.None? ==>
              && deps == GraphOf(catalog, selected)
              && Graph(selected, deps) && IsDependents(deps, dependents)
  {
    hide Acceptable, Names, Graph, GraphOf, IsDependents, Registered, WellFormedCatalog, ExtensionFails;
    dependents := map x | x in selected :: [];
    deps := map[];
    NothingRegistered(selected);
    ElementsAll(selected);
    assert forall x :: x in selected ==> Distinct(Names(catalog[x].requirements)) by { NamesDistinct(catalog); }
    hide Distinct, Elements;
    for i := 0 to |selected|
      invariant forall x :: x in dependents <==> x in selected
      invariant deps.Keys == Elements(selected[..i])
      invariant forall x :: x in deps ==> Acceptable(catalog, selected, x) && deps[x] == Names(catalog[x].requirements)
      invariant forall k :: 0 <= k < i ==> Acceptable(catalog, selected, selected[k])
      invariant Registered(deps, dependents)
    {
      var identifier := selected[i];
      ElementsStep(selected, i);
      ghost var before := dependents;
      error, dependents := ValidateExtension(catalog, selected, identifier, dependents);
      if error.Some? { return; }
      RegisterStep(deps, before, dependents, identifier, Names(catalog[identifier].requirements));
      deps := deps[identifier := Names(catalog[identifier].requirements)];
    }
    ElementsAll(selected);
    error := None;
    AcceptableGraph(catalog, selected);
    WholeGraph(catalog, selected, deps, dependents);
  }

  lemma NothingRegistered(selected: seq<string>)
    ensures Registered(map[], map x | x in selected :: [])
  {
  }

  lemma NamesDistinct(catalog: Catalog)
    requires WellFormedCatalog(catalog)
    ensures forall x :: x in catalog ==> Distinct(Names(catalog[x].requirements))
  {
  }

  function Elements(s: seq<string>): set<string> {
    set x | x in s
  }

  lemma ElementsStep(s: seq<string>, i: nat)
    requires Distinct(s) && i < |s|
    ensures s[i] !in Elements(s[..i]) && Elements(s[..i + 1]) == Elements(s[..i]) + {s[i]}
  {
    assert s[..i + 1] == s[..i] + [s[i]];
  }

  lemma ElementsAll(s: seq<string>)
    ensures Elements(s[..0]) == {}
    ensures forall x :: x in Elements(s[..|s|]) <==> x in s
  {
    assert s[..|s|] == s;
  }

  lemma WholeGraph(catalog: Catalog, selected: seq<string>, deps: Dependencies, dependents: map<string, seq<string>>)
    requires (forall x :: x in selected ==> x in catalog) && Registered(deps, dependents)
    requires (forall x :: x in dependents <==> x in selected) && (forall x :: x in deps <==> x in selected)
    requires forall x :: x in deps ==> deps[x] == Names(catalog[x].requirements)
    ensures deps == GraphOf(catalog, selected) && IsDependents(deps, dependents)
  {
    hide Names;
  }

  lemma AcceptableGraph(catalog: Catalog, selected: seq<string>)
    requires WellFormedCatalog(catalog) && Distinct(selected) && (forall x :: x in selected ==> x in catalog)
    requires forall x :: x in selected ==> Acceptable(catalog, selected, x)
    ensures Graph(selected, GraphOf(catalog, selected))
  {
    var deps := GraphOf(catalog, selected);
    forall x, d | x in deps && d in deps[x]
      ensures d in deps
    {
      var k :| 0 <= k < |deps[x]| && deps[x][k] == d;
      assert Satisfied(catalog, selected, catalog[x].requirements[k]);
    }
  }

  /** The graph that a catalog gives a selection. */
  function GraphOf(catalog: Catalog, selected: seq<string>): Dependencies
    requires forall x :: x in selected ==> x in catalog
  {
    map x | x in selected :: Names(catalog[x].requirements)
  }

  ghost predicate Orderable(catalog: Catalog, selected: seq<string>)
    requires forall x :: x in selected ==> x in catalog
  {
    && Graph(selected, GraphOf(catalog, selected))
    && exists order :: Topological(selected, GraphOf(catalog, selected), order)
  }

  predicate ServerSuits(manifest: Manifest, core: int) {
    manifest.minimumServer.None? || manifest.minimumServer.value <= core
  }

  /** The selection rules that do not look at dependencies. */
  ghost predicate Selectable(catalog: Catalog, enabled: seq<string>) {
    && BUILTIN in catalog && Distinct(enabled) && BUILTIN !in enabled
    && forall x :: x in enabled ==> x in catalog
  }

  /**
   * `resolve_extension_selection`: it succeeds exactly for a selectable, acceptable, acyclic
   * selection that suits the server, with the least load order and the built-in extension first.
   */
  method ResolveExtensionSelection(catalog: Catalog, enabled: seq<string>, core: int) returns (r: Selection)
    requires WellFormedCatalog(catalog)
    ensures r.Resolved? <==>
            && Selectable(catalog, enabled)
            && var selected := [BUILTIN] + enabled;
            && (forall x :: x in selected ==> Acceptable(catalog, selected, x))
            && Orderable(catalog, selected)
            && (forall x :: x in selected ==> ServerSuits(catalog[x], core))
    ensures r.Resolved? ==>
              && var selected := [BUILTIN] + enabled;
              && LexicographicallyLeast(selected, GraphOf(catalog, selected), r.order)
              && r.order[0] == BUILTIN
    ensures r.Failed? ==> ResolutionFails(catalog, enabled, core, r.error)
  {
    hide Acceptable, Graph, GraphOf, Topological, Greedy, LexicographicallyLeast, IsCycle, IsDependents, WellFormedCatalog;
    var problem := CheckSelectable(catalog, enabled);
    if problem.Some? { return Failed(problem.value); }
    var selected := [BUILTIN] + enabled;
    assert Distinct(selected);
    hide Distinct;
    var error, deps, dependents := Validate(catalog, selected);
    if error.Some? { return Failed(error.value); }
    var sorted := SortExtensions(selected, deps, dependents);
    if sorted.CycleDetected? { return Failed(Cyclic(sorted.cycle)); }
    var order := sorted.order;
    OrderOfLeast(selected, deps, order);
    OrderCoversSelection(selected, deps, order);
    BuiltinFirst(catalog, selected, order);
    var outdated := CheckServer(catalog, order, core);
    if outdated.Some? { return Failed(outdated.value); }
    r := Resolved(order);
  }

  lemma OrderOfLeast(selected: seq<string>, deps: Dependencies, order: seq<string>)
    requires Graph(selected, deps) && LexicographicallyLeast(selected, deps, order)
    ensures Topological(selected, deps, order) && |order| == |selected|
  {
  }

  lemma BuiltinFirst(catalog: Catalog, selected: seq<string>, order: seq<string>)
    requires (forall x :: x in selected ==> x in catalog) && selected != [] && selected[0] == BUILTIN
    requires Acceptable(catalog, selected, BUILTIN) && Graph(selected, GraphOf(catalog, selected))
    requires Greedy(selected, GraphOf(catalog, selected), order) && order != []
    ensures order[0] == BUILTIN
  {
    HeadLoadsFirst(selected, GraphOf(catalog, selected), order);
  }

  /** The error for a selection that is not one from the catalog. */
  ghost predicate CatalogFails(catalog: Catalog, enabled: seq<string>, error: SelectionError) {
    if BUILTIN !in catalog then error == NoBuiltin
    else if !Distinct(enabled) then error == DuplicateEnabled
    else if BUILTIN in enabled then error == BuiltinConfigured
    else Missing(catalog, enabled) != [] && error == NotFound(Missing(catalog, enabled))
  }

  /** The error of a resolution, from the first check that fails. */
  ghost predicate ResolutionFails(catalog: Catalog, enabled: seq<string>, core: int, error: SelectionError) {
    if !Selectable(catalog, enabled) then CatalogFails(catalog, enabled, error)
    else
      var selected := [BUILTIN] + enabled;
      if exists x :: x in selected && !Acceptable(catalog, selected, x) then SelectionFails(catalog, selected, error)
      else if !Orderable(catalog, selected) then error.Cyclic? && IsCycle(GraphOf(catalog, selected), error.cycle)
      else
        exists order ::
          && Graph(selected, GraphOf(catalog, selected)) && LexicographicallyLeast(selected, GraphOf(catalog, selected), order)
          && ServerFails(catalog, order, core, error)
  }

  /** The first extension in load order that needs a newer server. */
  ghost predicate ServerFails(catalog: Catalog, order: seq<string>, core: int, error: SelectionError) {
    exists i ::
      && 0 <= i < |order| && order[i] in catalog && !ServerSuits(catalog[order[i]], core) && error == ServerTooOld(order[i])
      && forall k :: 0 <= k < i ==> order[k] in catalog && ServerSuits(catalog[order[k]], core)
  }

  /** The checks of the selection before its dependencies are looked at. */
  method CheckSelectable(catalog: Catalog, enabled: seq<string>) returns (error: Option<SelectionError>)
    ensures error.None? <==> Selectable(catalog, enabled)
    ensures error.Some? ==> CatalogFails(catalog, enabled, error.value)
  {
    if BUILTIN !in catalog { return Some(NoBuiltin); }
    var distinct := CheckDistinct(enabled);
    if !distinct { return Some(DuplicateEnabled); }
    if BUILTIN in enabled { return Some(BuiltinConfigured); }
    var missing: seq<string> := [];
    assert enabled[..0] == [];
    for i := 0 to |enabled|
      invariant missing == Missing(catalog, enabled[..i])
    {
      assert enabled[..i + 1][..i] == enabled[..i];
      if enabled[i] !in catalog { missing := missing + [enabled[i]]; }
    }
    assert enabled[..|enabled|] == enabled;
    MissingExactly(catalog, enabled);
    if missing != [] {
      assert missing[0] in Missing(catalog, enabled);
      return Some(NotFound(missing));
    }
    assert forall x :: x in enabled ==> x !in Missing(catalog, enabled);
    error := None;
  }

  /** The first extension in load order that needs a newer server. */
  method CheckServer(catalog: Catalog, order: seq<string>, core: int) returns (error: Option<SelectionError>)
    requires forall x :: x in order ==> x in catalog
    ensures error.None? <==> forall x :: x in order ==> ServerSuits(catalog[x], core)
    ensures error.Some? ==> ServerFails(catalog, order, core, error.value)
  {
    for i := 0 to |order|
      invariant forall k :: 0 <= k < i ==> ServerSuits(catalog[order[k]], core)
    {
      assert order[i] in order;
      if catalog[order[i]].minimumServer.Some? && core < catalog[order[i]].minimumServer.value {
        return Some(ServerTooOld(order[i]));
      }
    }
    error := None;
  }

  method CheckDistinct(s: seq<string>) returns (b: bool)
    ensures b == Distinct(s)
  {
    var seen: set<string> := {};
    for i := 0 to |s|
      invariant Distinct(s[..i]) && forall x :: x in seen <==> x in s[..i]
    {
      assert s[..i + 1] == s[..i] + [s[i]];
      if s[i] in seen {
        var k :| 0 <= k < i && s[..i][k] == s[i];
        assert s[k] == s[i];
        return false;
      }
      seen := seen + {s[i]};
    }
    assert s[..|s|] == s;
    b := true;
  }
}
