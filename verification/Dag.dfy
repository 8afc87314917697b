/**
 Task graphs (crates/workflow-core/src/dag.rs): validation, the topological sort,
 the dependency search, and what they guarantee while the tasks are worked off.
 */
module TaskGraph {
  import opened Wrappers
  import opened RelativePath
  import opened Ordering

  type TaskId = nat

  datatype Role = Architect | Executor | FunctionalReviewer | SecurityArchitectureReviewer | Arbiter

  datatype TaskNode = TaskNode(id: TaskId, owner: Role, writeScopes: seq<string>, dependencies: seq<TaskId>)

  type Nodes = map<TaskId, TaskNode>

  datatype DagError =
    | Empty
    | DuplicateTask(task: TaskId)
    | InvalidOwner(task: TaskId)
    | InvalidScope(task: TaskId, scope: string)
    | OverlappingScope(first: TaskId, second: TaskId, firstScope: string, secondScope: string)
    | DuplicateDependency(task: TaskId, dependency: TaskId)
    | MissingDependency(task: TaskId, dependency: TaskId)
    | Cycle

  function Dependencies(nodes: Nodes, x: TaskId): seq<TaskId> {
    if x in nodes then nodes[x].dependencies else []
  }

  // ---- transitive dependency

  /** `x` depends on `y` by a chain of `k` dependencies. */
  ghost predicate Chain(nodes: Nodes, x: TaskId, y: TaskId, k: nat)
    decreases k
  {
    if k == 0 then x == y
    else exists z :: z in Dependencies(nodes, x) && Chain(nodes, z, y, k - 1)
  }

  ghost predicate DependsOn(nodes: Nodes, x: TaskId, y: TaskId) {
    exists k: nat :: k > 0 && Chain(nodes, x, y, k)
  }

  /** `y` is `x` itself or one of its transitive dependencies. */
  ghost predicate Reaches(nodes: Nodes, x: TaskId, y: TaskId) {
    exists k: nat :: Chain(nodes, x, y, k)
  }

  ghost predicate Acyclic(nodes: Nodes) {
    forall x :: !DependsOn(nodes, x, x)
  }

  lemma {:induction false} ChainJoin(nodes: Nodes, x: TaskId, y: TaskId, z: TaskId, j: nat, k: nat)
    requires Chain(nodes, x, y, j) && Chain(nodes, y, z, k)
    ensures Chain(nodes, x, z, j + k)
    decreases j
  {
    if j > 0 {
      var w :| w in Dependencies(nodes, x) && Chain(nodes, w, y, j - 1);
      ChainJoin(nodes, w, y, z, j - 1, k);
    }
  }

  // ---- the depth-first search

  /** Where the search stands: what was visited is closed up to what is pending. */
  ghost predicate SearchInvariant(nodes: Nodes, task: TaskId, target: TaskId, pending: seq<TaskId>,
                                  visited: set<TaskId>) {
    && (task in visited || task in pending)
    && (forall x :: x in visited ==> target !in Dependencies(nodes, x))
    && (forall x, y :: x in visited && y in Dependencies(nodes, x) ==> y in visited || y in pending)
    && (forall x :: x in pending ==> Reaches(nodes, task, x))
  }

  lemma {:induction false} VisitedIsClosed(nodes: Nodes, target: TaskId, visited: set<TaskId>, x: TaskId, k: nat)
    requires forall x :: x in visited ==> target !in Dependencies(nodes, x)
    requires forall x, y :: x in visited && y in Dependencies(nodes, x) ==> y in visited
    requires x in visited && k > 0
    ensures !Chain(nodes, x, target, k)
    decreases k
  {
    if Chain(nodes, x, target, k) {
      var z :| z in Dependencies(nodes, x) && Chain(nodes, z, target, k - 1);
      if k > 1 { VisitedIsClosed(nodes, target, visited, z, k - 1); }
    }
  }

  /** Every dependency named anywhere, and the start. */
  function Named(nodes: Nodes, task: TaskId): set<TaskId> {
    {task} + set x, y | x in nodes && y in nodes[x].dependencies :: y
  }

  lemma ChainStep(nodes: Nodes, task: TaskId, x: TaskId, y: TaskId)
    requires Reaches(nodes, task, x) && y in Dependencies(nodes, x)
    ensures DependsOn(nodes, task, y) && Reaches(nodes, task, y)
  {
    var k: nat :| Chain(nodes, task, x, k);
    assert Chain(nodes, y, y, 0);
    assert Chain(nodes, x, y, 1);
    ChainJoin(nodes, task, x, y, k, 1);
  }

  /** Visiting `current` and pushing all its dependencies. */
  lemma VisitStep(nodes: Nodes, task: TaskId, target: TaskId, pending: seq<TaskId>, current: TaskId,
                  visited: set<TaskId>)
    requires SearchInvariant(nodes, task, target, pending + [current], visited)
    requires target !in Dependencies(nodes, current)
    ensures SearchInvariant(nodes, task, target, pending + Dependencies(nodes, current), visited + {current})
  {
    var before, after := pending + [current], pending + Dependencies(nodes, current);
    assert current in before;
    forall x | x in after ensures Reaches(nodes, task, x) {
      if x in pending { assert x in before; } else { ChainStep(nodes, task, current, x); }
    }
    forall x | x in before ensures x in after || x == current {
    }
  }

  /** Popping a node that was visited before. */
  lemma SkipStep(nodes: Nodes, task: TaskId, target: TaskId, pending: seq<TaskId>, current: TaskId,
                 visited: set<TaskId>)
    requires SearchInvariant(nodes, task, target, pending + [current], visited) && current in visited
    ensures SearchInvariant(nodes, task, target, pending, visited)
  {
    assert forall x :: x in pending ==> x in pending + [current];
  }

  lemma SearchExhausted(nodes: Nodes, task: TaskId, target: TaskId, visited: set<TaskId>)
    requires SearchInvariant(nodes, task, target, [], visited)
    ensures !DependsOn(nodes, task, target)
  {
    forall k: nat | k > 0 ensures !Chain(nodes, task, target, k) {
      VisitedIsClosed(nodes, target, visited, task, k);
    }
  }

  lemma TargetFound(nodes: Nodes, task: TaskId, target: TaskId, pending: seq<TaskId>, current: TaskId,
                    visited: set<TaskId>)
    requires SearchInvariant(nodes, task, target, pending + [current], visited)
    requires target in Dependencies(nodes, current)
    ensures DependsOn(nodes, task, target)
  {
    assert current in pending + [current];
    ChainStep(nodes, task, current, target);
  }

  lemma DependenciesNamed(nodes: Nodes, task: TaskId, x: TaskId)
    ensures forall y :: y in Dependencies(nodes, x) ==> y in Named(nodes, task)
  {
  }

  lemma SearchStart(nodes: Nodes, task: TaskId, target: TaskId)
    ensures SearchInvariant(nodes, task, target, [task], {}) && task in Named(nodes, task)
  {
    assert Chain(nodes, task, task, 0);
  }

  /** `depends_on`: exactly transitive dependency. */
  method DependsOnSearch(nodes: Nodes, task: TaskId, target: TaskId) returns (found: bool)
    ensures found <==> DependsOn(nodes, task, target)
  {
    var pending := [task];
    var visited: set<TaskId> := {};
    hide SearchInvariant, DependsOn, Named, Dependencies;
    SearchStart(nodes, task, target);
    while pending != []
      invariant SearchInvariant(nodes, task, target, pending, visited)
      invariant visited <= Named(nodes, task) && forall x :: x in pending ==> x in Named(nodes, task)
      decreases Named(nodes, task) - visited, |pending|
    {
      var current := pending[|pending| - 1];
      assert pending == pending[..|pending| - 1] + [current];
      pending := pending[..|pending| - 1];
      if current in visited {
        SkipStep(nodes, task, target, pending, current, visited);
        continue;
      }
      var dependencies := Dependencies(nodes, current);
      DependenciesNamed(nodes, task, current);
      ghost var pending0 := pending;
      for i := 0 to |dependencies|
        invariant pending == pending0 + dependencies[..i] && target !in dependencies[..i]
      {
        if dependencies[i] == target {
          TargetFound(nodes, task, target, pending0, current, visited);
          return true;
        }
        pending := pending + [dependencies[i]];
      }
      assert dependencies[..|dependencies|] == dependencies;
      VisitStep(nodes, task, target, pending0, current, visited);
      visited := visited + {current};
    }
    SearchExhausted(nodes, task, target, visited);
    found := false;
  }

  /** `dependency_ordered`. */
  method DependencyOrdered(nodes: Nodes, first: TaskId, second: TaskId) returns (ordered: bool)
    ensures ordered <==> DependsOn(nodes, first, second) || DependsOn(nodes, second, first)
  {
    ordered := DependsOnSearch(nodes, first, second);
    if !ordered { ordered := DependsOnSearch(nodes, second, first); }
  }

  // ---- topological orders

  /** All dependencies of `x` are among `done`. */
  ghost predicate Free(nodes: Nodes, done: seq<TaskId>, x: TaskId) {
    forall y :: y in Dependencies(nodes, x) ==> y in done
  }

  /** Every task once, after all its dependencies. */
  ghost predicate Topological(nodes: Nodes, order: seq<TaskId>) {
    && NoRepeats(order)
    && (forall x :: x in order <==> x in nodes)
    && forall k :: 0 <= k < |order| ==> Free(nodes, order[..k], order[k])
  }

  /** Smaller at the first difference, or equal. */
  ghost predicate LexLeq(s: seq<nat>, t: seq<nat>) {
    s == t || exists k :: 0 <= k < |s| && k < |t| && s[..k] == t[..k] && s[k] < t[k]
  }

  /** Each task of `order` is the least one whose turn it could have been. */
  ghost predicate Greedy(nodes: Nodes, order: seq<TaskId>) {
    forall k, x :: 0 <= k < |order| && x in nodes && x !in order[..k] && Free(nodes, order[..k], x) ==> order[k] <= x
  }

  lemma GreedyIsLeast(nodes: Nodes, order: seq<TaskId>, other: seq<TaskId>)
    requires Topological(nodes, order) && Greedy(nodes, order) && Topological(nodes, other)
    ensures LexLeq(order, other)
  {
    SameLength(nodes, order, other);
    if order != other {
      var k := FirstDifference(order, other);
      assert other[k] in nodes by { assert other[k] in other; }
      assert other[k] !in order[..k];
      assert Free(nodes, order[..k], other[k]);
    }
  }

  lemma FirstDifference(s: seq<nat>, t: seq<nat>) returns (k: nat)
    requires |s| == |t| && s != t
    ensures k < |s| && s[..k] == t[..k] && s[k] != t[k]
  {
    k := 0;
    while k < |s| && s[k] == t[k]
      invariant k <= |s| && forall i :: 0 <= i < k ==> s[i] == t[i]
    {
      k := k + 1;
    }
    assert s[..k] == t[..k];
    assert (forall i :: 0 <= i < |s| ==> s[i] == t[i]) ==> s == t;
  }

  function Elements(s: seq<TaskId>): set<TaskId> {
    set x | x in s
  }

  lemma {:induction false} NoRepeatsCount(s: seq<TaskId>)
    requires NoRepeats(s)
    ensures |Elements(s)| == |s|
    decreases |s|
  {
    if s != [] {
      var init, last := s[..|s| - 1], s[|s| - 1];
      NoRepeatsCount(init);
      assert Elements(s) == Elements(init) + {last};
      assert last !in init;
    }
  }

  lemma SameLength(nodes: Nodes, s: seq<TaskId>, t: seq<TaskId>)
    requires Topological(nodes, s) && Topological(nodes, t)
    ensures |s| == |t| == |nodes|
  {
    NoRepeatsCount(s);
    NoRepeatsCount(t);
    assert Elements(s) == nodes.Keys == Elements(t);
  }

  // ---- cycles

  lemma DependencyStandsBefore(nodes: Nodes, order: seq<TaskId>, i: nat, z: TaskId) returns (m: nat)
    requires Topological(nodes, order) && i < |order| && z in Dependencies(nodes, order[i])
    ensures m < i && order[m] == z
  {
    assert Free(nodes, order[..i], order[i]);
    m :| 0 <= m < i && order[..i][m] == z;
  }

  /** In a topological order every transitive dependency stands strictly before. */
  lemma {:induction false} ChainGoesBack(nodes: Nodes, order: seq<TaskId>, i: nat, y: TaskId, k: nat)
    requires Topological(nodes, order) && i < |order| && Chain(nodes, order[i], y, k)
    ensures exists j :: 0 <= j <= i && order[j] == y && (k > 0 ==> j < i)
    decreases k
  {
    hide Topological;
    if k > 0 {
      var z :| z in Dependencies(nodes, order[i]) && Chain(nodes, z, y, k - 1);
      var m := DependencyStandsBefore(nodes, order, i, z);
      ChainGoesBack(nodes, order, m, y, k - 1);
    }
  }

  lemma TopologicalIsAcyclic(nodes: Nodes, order: seq<TaskId>)
    requires Topological(nodes, order)
    ensures Acyclic(nodes)
  {
    forall x | DependsOn(nodes, x, x) ensures false {
      var k: nat :| k > 0 && Chain(nodes, x, x, k);
      var z :| z in Dependencies(nodes, x) && Chain(nodes, z, x, k - 1);
      assert x in nodes;
      var i :| 0 <= i < |order| && order[i] == x;
      ChainGoesBack(nodes, order, i, x, k);
    }
  }

  /** Each task of the path depends on the next. */
  ghost predicate Linked(nodes: Nodes, path: seq<TaskId>) {
    forall i, j :: 0 <= i && i + 1 == j && j < |path| ==> path[j] in Dependencies(nodes, path[i])
  }

  lemma LinkedNext(nodes: Nodes, path: seq<TaskId>, y: TaskId)
    requires path != [] && Linked(nodes, path) && y in Dependencies(nodes, path[|path| - 1])
    ensures Linked(nodes, path + [y])
  {
  }

  /** `x` depends on some task of the set. */
  ghost predicate Waits(nodes: Nodes, stuck: set<TaskId>, x: TaskId) {
    exists y :: y in stuck && y in Dependencies(nodes, x)
  }

  lemma WaitsFor(nodes: Nodes, stuck: set<TaskId>, x: TaskId) returns (y: TaskId)
    requires Waits(nodes, stuck, x)
    ensures y in stuck && y in Dependencies(nodes, x)
  {
    y :| y in stuck && y in Dependencies(nodes, x);
  }

  /** Where every task of a set depends on another of the set, any path inside it
      leads into a cycle; `left` are the tasks not on the path yet. */
  lemma {:induction false} StuckMeansCycle(nodes: Nodes, stuck: set<TaskId>, path: seq<TaskId>, left: set<TaskId>)
    requires path != [] && path[|path| - 1] in stuck && forall x :: x in stuck ==> x in path || x in left
    requires Linked(nodes, path)
    requires forall x :: x in stuck ==> Waits(nodes, stuck, x)
    ensures !Acyclic(nodes)
    decreases |left|
  {
    hide *;
    var y := WaitsFor(nodes, stuck, path[|path| - 1]);
    if y in path {
      var i :| 0 <= i < |path| && path[i] == y;
      ClosesCycle(nodes, path, i);
    } else {
      LinkedNext(nodes, path, y);
      StuckMeansCycle(nodes, stuck, path + [y], left - {y});
    }
  }

  lemma ClosesCycle(nodes: Nodes, path: seq<TaskId>, i: nat)
    requires i < |path| && path[i] in Dependencies(nodes, path[|path| - 1])
    requires Linked(nodes, path)
    ensures !Acyclic(nodes)
  {
    var y, last := path[i], path[|path| - 1];
    ChainAlong(nodes, path, i, |path| - 1);
    assert Chain(nodes, y, y, 0);
    assert Chain(nodes, last, y, 1);
    ChainJoin(nodes, y, last, y, |path| - 1 - i, 1);
    assert DependsOn(nodes, y, y);
  }

  lemma {:induction false} ChainAlong(nodes: Nodes, path: seq<TaskId>, i: nat, j: nat)
    requires i <= j < |path|
    requires Linked(nodes, path)
    ensures Chain(nodes, path[i], path[j], j - i)
    decreases j - i
  {
    if i < j { ChainAlong(nodes, path, i + 1, j); }
  }

  // ---- Kahn's algorithm

  /** What `validate_nodes` has established when `sort` is called. */
  ghost predicate WellLinked(nodes: Nodes) {
    forall x :: x in nodes ==> nodes[x].id == x && NoRepeats(nodes[x].dependencies)
                               && forall y :: y in nodes[x].dependencies ==> y in nodes
  }

  /** How many of the dependencies are not done. */
  function Missing(dependencies: seq<TaskId>, done: set<TaskId>): nat {
    if dependencies == [] then 0
    else Missing(dependencies[1..], done) + if dependencies[0] in done then 0 else 1
  }

  lemma {:induction false} MissingNone(dependencies: seq<TaskId>, done: set<TaskId>)
    ensures Missing(dependencies, done) == 0 <==> forall y :: y in dependencies ==> y in done
    decreases |dependencies|
  {
    if dependencies != [] {
      MissingNone(dependencies[1..], done);
      assert dependencies == [dependencies[0]] + dependencies[1..];
    }
  }

  lemma {:induction false} MissingAll(dependencies: seq<TaskId>)
    ensures Missing(dependencies, {}) == |dependencies|
    decreases |dependencies|
  {
    if dependencies != [] { MissingAll(dependencies[1..]); }
  }

  lemma {:induction false} MissingOneMore(dependencies: seq<TaskId>, done: set<TaskId>, x: TaskId)
    requires NoRepeats(dependencies) && x !in done
    ensures Missing(dependencies, done) == Missing(dependencies, done + {x}) + if x in dependencies then 1 else 0
    decreases |dependencies|
  {
    if dependencies != [] {
      var rest := dependencies[1..];
      assert dependencies == [dependencies[0]] + rest;
      assert NoRepeats(rest);
      MissingOneMore(rest, done, x);
      if dependencies[0] == x { assert x !in rest; }
    }
  }

  type Indegrees = map<TaskId, nat>

  ghost predicate Counted(nodes: Nodes, indegrees: Indegrees, done: set<TaskId>) {
    indegrees.Keys == nodes.Keys && forall x :: x in nodes ==> indegrees[x] == Missing(nodes[x].dependencies, done)
  }

  /** The keys that name `task` as a dependency, in order. */
  function DependentsOf(nodes: Nodes, keys: seq<TaskId>, task: TaskId): seq<TaskId> {
    if keys == [] then []
    else
      var x := keys[|keys| - 1];
      DependentsOf(nodes, keys[..|keys| - 1], task) + if task in Dependencies(nodes, x) then [x] else []
  }

  lemma {:induction false} DependentsAre(nodes: Nodes, keys: seq<TaskId>, task: TaskId)
    requires Ascending(keys)
    ensures NoRepeats(DependentsOf(nodes, keys, task))
    ensures forall x :: x in DependentsOf(nodes, keys, task) <==> x in keys && task in Dependencies(nodes, x)
    decreases |keys|
  {
    if keys != [] {
      var init, x := keys[..|keys| - 1], keys[|keys| - 1];
      DependentsAre(nodes, init, task);
      assert keys == init + [x] && x !in init;
    }
  }

  function ListOf(dependents: map<TaskId, seq<TaskId>>, task: TaskId): seq<TaskId> {
    if task in dependents then dependents[task] else []
  }

  /** The loops of `sort` that collect the dependents. */
  method CollectDependents(nodes: Nodes, keys: seq<TaskId>) returns (dependents: map<TaskId, seq<TaskId>>)
    requires WellLinked(nodes) && forall x :: x in keys ==> x in nodes
    ensures forall task :: ListOf(dependents, task) == DependentsOf(nodes, keys, task)
  {
    dependents := map[];
    for i := 0 to |keys|
      invariant forall task :: ListOf(dependents, task) == DependentsOf(nodes, keys[..i], task)
    {
      var x := keys[i];
      assert x in nodes;
      assert keys[..i + 1][..i] == keys[..i];
      dependents := AddDependent(dependents, x, nodes[x].dependencies);
    }
    assert keys[..|keys|] == keys;
  }

  method AddDependent(dependents: map<TaskId, seq<TaskId>>, x: TaskId, dependencies: seq<TaskId>)
    returns (after: map<TaskId, seq<TaskId>>)
    requires NoRepeats(dependencies)
    ensures forall task :: ListOf(after, task) == ListOf(dependents, task) + if task in dependencies then [x] else []
  {
    after := dependents;
    for k := 0 to |dependencies|
      invariant forall task :: task in dependencies[..k] ==> ListOf(after, task) == ListOf(dependents, task) + [x]
      invariant forall task :: task !in dependencies[..k] ==> ListOf(after, task) == ListOf(dependents, task)
    {
      var y := dependencies[k];
      assert dependencies[..k + 1] == dependencies[..k] + [y];
      assert y !in dependencies[..k];
      after := after[y := ListOf(after, y) + [x]];
    }
    assert dependencies[..|dependencies|] == dependencies;
  }

  /** Ready to be popped: not done, and nothing missing. */
  ghost predicate ReadyIs(nodes: Nodes, ready: set<TaskId>, order: seq<TaskId>) {
    forall x :: x in ready <==> x in nodes && x !in order && Free(nodes, order, x)
  }

  /** No repeats, only tasks, each after its dependencies, each the least it could be. */
  ghost predicate Ordered(nodes: Nodes, order: seq<TaskId>) {
    && NoRepeats(order) && (forall x :: x in order ==> x in nodes)
    && (forall k :: 0 <= k < |order| ==> Free(nodes, order[..k], order[k]))
    && Greedy(nodes, order)
  }

  /** What holds between two pops. */
  ghost predicate Sorting(nodes: Nodes, indegrees: Indegrees, ready: set<TaskId>, order: seq<TaskId>) {
    Counted(nodes, indegrees, Elements(order)) && ReadyIs(nodes, ready, order) && Ordered(nodes, order)
  }

  lemma FreeMeansNoneMissing(nodes: Nodes, order: seq<TaskId>, x: TaskId)
    requires x in nodes
    ensures Free(nodes, order, x) <==> Missing(nodes[x].dependencies, Elements(order)) == 0
  {
    MissingNone(nodes[x].dependencies, Elements(order));
  }

  /** One step of all counts. */
  lemma PoppedCounts(nodes: Nodes, indegrees: Indegrees, order: seq<TaskId>, task: TaskId, indegrees': Indegrees)
    requires WellLinked(nodes) && Counted(nodes, indegrees, Elements(order)) && task !in order
    requires indegrees'.Keys == nodes.Keys
    requires forall x :: x in nodes ==> indegrees[x] == indegrees'[x] + if task in nodes[x].dependencies then 1 else 0
    ensures Counted(nodes, indegrees', Elements(order + [task]))
  {
    assert Elements(order + [task]) == Elements(order) + {task};
    forall x | x in nodes ensures indegrees'[x] == Missing(nodes[x].dependencies, Elements(order) + {task}) {
      MissingOneMore(nodes[x].dependencies, Elements(order), task);
    }
  }

  /** Who is ready next. */
  lemma PoppedReady(nodes: Nodes, ready: set<TaskId>, order: seq<TaskId>, task: TaskId, indegrees': Indegrees,
                    ready': set<TaskId>, x: TaskId)
    requires WellLinked(nodes) && ReadyIs(nodes, ready, order) && task in ready && Ordered(nodes, order)
    requires Counted(nodes, indegrees', Elements(order + [task]))
    requires x in ready' <==>
              (x in ready && x != task) || (x in nodes && task in nodes[x].dependencies && indegrees'[x] == 0)
    ensures x in ready' <==> x in nodes && x !in order + [task] && Free(nodes, order + [task], x)
  {
    if x in nodes {
      FreeMeansNoneMissing(nodes, order + [task], x);
      if x in order + [task] && task in nodes[x].dependencies { OrderedIsFree(nodes, order, task, x); }
      if task !in nodes[x].dependencies {
        assert Free(nodes, order + [task], x) <==> Free(nodes, order, x);
      } else {
        assert !Free(nodes, order, x);
      }
    }
  }

  /** Everything after `task` has been popped and its dependents updated. */
  lemma Popped(nodes: Nodes, indegrees: Indegrees, ready: set<TaskId>, order: seq<TaskId>, task: TaskId,
               indegrees': Indegrees, ready': set<TaskId>)
    requires WellLinked(nodes) && Sorting(nodes, indegrees, ready, order)
    requires task in ready && forall y :: y in ready ==> task <= y
    requires indegrees'.Keys == nodes.Keys && indegrees.Keys == nodes.Keys
    requires forall x :: x in nodes ==> indegrees[x] == indegrees'[x] + if task in nodes[x].dependencies then 1 else 0
    requires forall x :: x in ready' <==>
              (x in ready && x != task) || (x in nodes && task in nodes[x].dependencies && indegrees'[x] == 0)
    ensures Sorting(nodes, indegrees', ready', order + [task])
  {
    hide Counted, Ordered, WellLinked, Elements;
    assert task !in order;
    PoppedCounts(nodes, indegrees, order, task, indegrees');
    forall x ensures x in ready' <==> x in nodes && x !in order + [task] && Free(nodes, order + [task], x) {
      PoppedReady(nodes, ready, order, task, indegrees', ready', x);
    }
    PoppedOrder(nodes, ready, order, task);
  }

  lemma PoppedOrder(nodes: Nodes, ready: set<TaskId>, order: seq<TaskId>, task: TaskId)
    requires ReadyIs(nodes, ready, order) && task in ready && forall y :: y in ready ==> task <= y
    requires Ordered(nodes, order)
    ensures Ordered(nodes, order + [task])
  {
    var after := order + [task];
    assert forall k :: 0 <= k <= |order| ==> after[..k] == order[..k];
    assert order[..|order|] == order;
  }

  /** A task that was popped earlier, or is popped now, does not wait for the one popped now. */
  lemma OrderedIsFree(nodes: Nodes, order: seq<TaskId>, task: TaskId, x: TaskId)
    requires task !in order && Free(nodes, order, task) && x in order + [task] && x in nodes
    requires forall k :: 0 <= k < |order| ==> Free(nodes, order[..k], order[k])
    ensures task !in nodes[x].dependencies
  {
    if x in order {
      var k :| 0 <= k < |order| && order[k] == x;
      assert Free(nodes, order[..k], order[k]);
      assert forall y :: y in order[..k] ==> y in order;
    }
  }

  /** An empty ready set with tasks left over means a cycle; otherwise the order is topological. */
  lemma SortEnds(nodes: Nodes, indegrees: Indegrees, order: seq<TaskId>)
    requires Sorting(nodes, indegrees, {}, order) && WellLinked(nodes)
    ensures |order| == |nodes| ==> Topological(nodes, order)
    ensures |order| != |nodes| ==> !Acyclic(nodes)
  {
    NoRepeatsCount(order);
    assert Elements(order) <= nodes.Keys;
    if |order| == |nodes| {
      AllOf(Elements(order), nodes.Keys);
    } else {
      var stuck := nodes.Keys - Elements(order);
      assert stuck == {} ==> Elements(order) == nodes.Keys;
      forall x | x in stuck ensures Waits(nodes, stuck, x) {
        assert !Free(nodes, order, x);
        var y :| y in Dependencies(nodes, x) && y !in order;
        assert y in stuck;
      }
      var x :| x in stuck;
      StuckMeansCycle(nodes, stuck, [x], stuck);
    }
  }

  lemma SmallerSet<A>(s: set<A>, t: set<A>)
    requires s < t
    ensures |s| < |t|
  {
    assert t == s + (t - s);
    assert t - s != {};
  }

  lemma AllOf<A>(s: set<A>, t: set<A>)
    requires s <= t && |s| == |t|
    ensures s == t
  {
    if s != t {
      SmallerSet(s, t);
    }
  }

  /** `sort`: a topological order exactly for the acyclic graphs, and then the
      lexicographically least one.  The counts never go below zero. */
  method Sort(nodes: Nodes) returns (r: Result<seq<TaskId>, DagError>)
    requires WellLinked(nodes)
    ensures r.Success? <==> Acyclic(nodes)
    ensures r.Success? ==>
              Topological(nodes, r.value) && forall other :: Topological(nodes, other) ==> LexLeq(r.value, other)
    ensures r.Failure? ==> r.error == Cycle
  {
    hide *;
    var keys := AscendingKeys(nodes.Keys);
    var dependents := CollectDependents(nodes, keys);
    var indegrees, ready := InitialCounts(nodes);
    var order: seq<TaskId> := [];
    while ready != {}
      invariant Sorting(nodes, indegrees, ready, order)
      decreases |nodes| - |order|
    {
      ghost var least := LeastOf(ready);
      var task :| task in ready && forall y :: y in ready ==> task <= y;
      var list := ListOf(dependents, task);
      ghost var indegrees0, ready0 := indegrees, ready;
      ready := ready - {task};
      DependentsWait(nodes, keys, task, indegrees0, ready0, order);
      indegrees, ready := Release(nodes, task, list, indegrees, ready);
      Popped(nodes, indegrees0, ready0, order, task, indegrees, ready);
      ShorterThanNodes(nodes, indegrees, ready, order + [task]);
      order := order + [task];
    }
    SortEnds(nodes, indegrees, order);
    if |order| == |nodes| {
      Conclude(nodes, indegrees, order);
      r := Success(order);
    } else {
      r := Failure(Cycle);
    }
  }

  /** The counts and the tasks without dependencies. */
  method InitialCounts(nodes: Nodes) returns (indegrees: Indegrees, ready: set<TaskId>)
    ensures Sorting(nodes, indegrees, ready, [])
  {
    indegrees := map x | x in nodes :: |nodes[x].dependencies|;
    ready := set x | x in nodes && |nodes[x].dependencies| == 0;
    SortStarts(nodes, indegrees, ready);
  }

  lemma SortStarts(nodes: Nodes, indegrees: Indegrees, ready: set<TaskId>)
    requires indegrees == map x | x in nodes :: |nodes[x].dependencies|
    requires ready == set x | x in nodes && |nodes[x].dependencies| == 0
    ensures Sorting(nodes, indegrees, ready, [])
  {
    assert Elements([]) == {};
    forall x | x in nodes ensures indegrees[x] == Missing(nodes[x].dependencies, Elements([])) {
      MissingAll(nodes[x].dependencies);
    }
    forall x ensures x in ready <==> x in nodes && x !in [] && Free(nodes, [], x) {
      if x in nodes && nodes[x].dependencies != [] { assert nodes[x].dependencies[0] in Dependencies(nodes, x); }
    }
  }

  lemma ShorterThanNodes(nodes: Nodes, indegrees: Indegrees, ready: set<TaskId>, order: seq<TaskId>)
    requires Sorting(nodes, indegrees, ready, order)
    ensures |order| <= |nodes|
  {
    NoRepeatsCount(order);
    assert Elements(order) <= nodes.Keys;
    if Elements(order) != nodes.Keys { SmallerSet(Elements(order), nodes.Keys); }
  }

  lemma Conclude(nodes: Nodes, indegrees: Indegrees, order: seq<TaskId>)
    requires Sorting(nodes, indegrees, {}, order) && Topological(nodes, order)
    ensures Acyclic(nodes) && forall other :: Topological(nodes, other) ==> LexLeq(order, other)
  {
    TopologicalIsAcyclic(nodes, order);
    forall other | Topological(nodes, other) ensures LexLeq(order, other) {
      GreedyIsLeast(nodes, order, other);
    }
  }

  /** Every dependent of a task that is ready still counts it. */
  lemma DependentsWait(nodes: Nodes, keys: seq<TaskId>, task: TaskId, indegrees: Indegrees, ready: set<TaskId>,
                       order: seq<TaskId>)
    requires WellLinked(nodes) && Ascending(keys) && (forall x :: x in keys <==> x in nodes)
    requires Sorting(nodes, indegrees, ready, order) && task in ready
    ensures var list := DependentsOf(nodes, keys, task);
            && NoRepeats(list)
            && (forall x :: x in list <==> x in nodes && task in nodes[x].dependencies)
            && indegrees.Keys == nodes.Keys && forall x :: x in list ==> x in indegrees && indegrees[x] > 0
  {
    hide Ordered, Missing, Free, Ascending, NoRepeats, DependentsOf;
    DependentsAre(nodes, keys, task);
    forall x | x in DependentsOf(nodes, keys, task) ensures indegrees[x] > 0 {
      MissingOneMore(nodes[x].dependencies, Elements(order), task);
    }
  }

  /** The inner loop of `sort`: one step down for every dependent of `task`. */
  method Release(nodes: Nodes, ghost task: TaskId, list: seq<TaskId>, indegrees0: Indegrees, ready0: set<TaskId>)
    returns (indegrees: Indegrees, ready: set<TaskId>)
    requires NoRepeats(list) && indegrees0.Keys == nodes.Keys
              && forall x :: x in list ==> x in indegrees0 && indegrees0[x] > 0
    requires forall x :: x in list <==> x in nodes && task in nodes[x].dependencies
    ensures indegrees.Keys == nodes.Keys
    ensures forall x :: x in nodes ==> indegrees0[x] == indegrees[x] + if task in nodes[x].dependencies then 1 else 0
    ensures forall x :: x in ready <==>
              x in ready0 || (x in nodes && task in nodes[x].dependencies && indegrees[x] == 0)
  {
    indegrees, ready := indegrees0, ready0;
    for i := 0 to |list|
      invariant indegrees.Keys == nodes.Keys
      invariant forall x :: x in nodes ==> indegrees0[x] == indegrees[x] + if x in list[..i] then 1 else 0
      invariant forall x :: x in ready <==> x in ready0 || (x in list[..i] && indegrees[x] == 0)
    {
      var dependent := list[i];
      assert dependent in list && dependent !in list[..i];
      assert list[..i + 1] == list[..i] + [dependent];
      indegrees := indegrees[dependent := indegrees[dependent] - 1];
      if indegrees[dependent] == 0 { ready := ready + {dependent}; }
    }
    assert list[..|list|] == list;
  }

  // ---- validation

  ghost predicate ValidNode(nodes: Nodes, n: TaskNode) {
    && n.owner == Executor && n.writeScopes != []
    && (forall i :: 0 <= i < |n.writeScopes| ==> IsSafeRelative(n.writeScopes[i]))
    && NoRepeats(n.dependencies) && (forall y :: y in n.dependencies ==> y in nodes)
  }

  /** The first `i` scopes are safe. */
  ghost predicate ScopesSafe(n: TaskNode, i: nat)
    requires i <= |n.writeScopes|
  {
    forall k :: 0 <= k < i ==> IsSafeRelative(n.writeScopes[k])
  }

  /** The first `i` dependencies are distinct tasks of the graph. */
  ghost predicate DependenciesKnown(nodes: Nodes, n: TaskNode, i: nat)
    requires i <= |n.dependencies|
  {
    NoRepeats(n.dependencies[..i]) && forall y :: y in n.dependencies[..i] ==> y in nodes
  }

  /** The owner and the scopes of `n` are valid. */
  ghost predicate OwnsScopes(n: TaskNode) {
    n.owner == Executor && n.writeScopes != [] && ScopesSafe(n, |n.writeScopes|)
  }

  /** The error is the first fault of `n`: owner before scopes before dependencies,
      each in their order. */
  ghost predicate NodeError(nodes: Nodes, n: TaskNode, error: DagError) {
    match error
    case InvalidOwner(t) => t == n.id && n.owner != Executor
    case InvalidScope(t, s) =>
      && t == n.id && n.owner == Executor
      && if n.writeScopes == [] then s == ""
         else exists i :: 0 <= i < |n.writeScopes| && n.writeScopes[i] == s && !IsSafeRelative(s) && ScopesSafe(n, i)
    case DuplicateDependency(t, y) =>
      && t == n.id && OwnsScopes(n)
      && exists i :: 0 <= i < |n.dependencies| && n.dependencies[i] == y && DependenciesKnown(nodes, n, i)
          && y in n.dependencies[..i]
    case MissingDependency(t, y) =>
      && t == n.id && OwnsScopes(n)
      && exists i :: 0 <= i < |n.dependencies| && n.dependencies[i] == y && DependenciesKnown(nodes, n, i)
          && y !in nodes
    case _ => false
  }

  /** The error is a true statement about the graph. */
  ghost predicate GraphError(nodes: Nodes, error: DagError) {
    match error
    case OverlappingScope(x, y, s, t) =>
      && x in nodes && y in nodes && s in nodes[x].writeScopes && t in nodes[y].writeScopes
      && !Compatible(nodes, (x, s), (y, t))
    case _ => exists x :: x in nodes && NodeError(nodes, nodes[x], error)
  }

  /** The owner, scope and dependency checks of one node; `None` means no error. */
  method CheckNode(nodes: Nodes, n: TaskNode) returns (error: Option<DagError>)
    ensures error.None? <==> ValidNode(nodes, n)
    ensures error.Some? ==> NodeError(nodes, n, error.value)
  {
    if n.owner != Executor { return Some(InvalidOwner(n.id)); }
    if n.writeScopes == [] { return Some(InvalidScope(n.id, "")); }
    for i := 0 to |n.writeScopes|
      invariant ScopesSafe(n, i)
    {
      if !IsSafeRelative(n.writeScopes[i]) { return Some(InvalidScope(n.id, n.writeScopes[i])); }
    }
    var seen: set<TaskId> := {};
    for i := 0 to |n.dependencies|
      invariant seen == Elements(n.dependencies[..i]) && DependenciesKnown(nodes, n, i)
    {
      var y := n.dependencies[i];
      assert n.dependencies[..i + 1] == n.dependencies[..i] + [y];
      if y in seen {
        assert y in n.dependencies[..i];
        ghost var k :| 0 <= k < i && n.dependencies[..i][k] == y;
        assert n.dependencies[k] == n.dependencies[i];
        return Some(DuplicateDependency(n.id, y));
      }
      seen := seen + {y};
      if y !in nodes { return Some(MissingDependency(n.id, y)); }
    }
    assert n.dependencies[..|n.dependencies|] == n.dependencies;
    error := None;
  }

  /** All scopes in the order the second loop of `validate_nodes` meets them. */
  function Scopes(nodes: Nodes, keys: seq<TaskId>): seq<(TaskId, string)>
    requires forall x :: x in keys ==> x in nodes
  {
    if keys == [] then []
    else Scopes(nodes, keys[..|keys| - 1]) + OwnScopes(keys[|keys| - 1], nodes[keys[|keys| - 1]].writeScopes)
  }

  function OwnScopes(x: TaskId, scopes: seq<string>): seq<(TaskId, string)> {
    seq(|scopes|, i requires 0 <= i < |scopes| => (x, scopes[i]))
  }

  lemma {:induction false} EveryScopeListed(nodes: Nodes, keys: seq<TaskId>, x: TaskId, scope: string)
    requires (forall x :: x in keys ==> x in nodes) && x in keys && scope in nodes[x].writeScopes
    ensures (x, scope) in Scopes(nodes, keys)
    decreases |keys|
  {
    var last := keys[|keys| - 1];
    if x == last {
      var i :| 0 <= i < |nodes[x].writeScopes| && nodes[x].writeScopes[i] == scope;
      assert OwnScopes(x, nodes[x].writeScopes)[i] == (x, scope);
    } else {
      assert keys == keys[..|keys| - 1] + [last];
      EveryScopeListed(nodes, keys[..|keys| - 1], x, scope);
    }
  }

  lemma {:induction false} ListedIsScope(nodes: Nodes, keys: seq<TaskId>, p: (TaskId, string))
    requires (forall x :: x in keys ==> x in nodes) && p in Scopes(nodes, keys)
    ensures p.0 in nodes && p.1 in nodes[p.0].writeScopes
    decreases |keys|
  {
    var last := keys[|keys| - 1];
    if p in Scopes(nodes, keys[..|keys| - 1]) {
      ListedIsScope(nodes, keys[..|keys| - 1], p);
    } else {
      assert p in OwnScopes(last, nodes[last].writeScopes);
    }
  }

  /** Two listed scopes may overlap only between dependency-ordered tasks. */
  ghost predicate Compatible(nodes: Nodes, p: (TaskId, string), q: (TaskId, string)) {
    Overlaps(q.1, p.1) ==> DependsOn(nodes, q.0, p.0) || DependsOn(nodes, p.0, q.0)
  }

  /** The overlap loop. */
  method CheckScopes(nodes: Nodes, keys: seq<TaskId>) returns (error: Option<DagError>)
    requires forall x :: x in keys ==> x in nodes
    ensures error.None? <==>
              forall i, j :: 0 <= i < j < |Scopes(nodes, keys)| ==>
                  Compatible(nodes, Scopes(nodes, keys)[i], Scopes(nodes, keys)[j])
    ensures error.Some? ==> error.value.OverlappingScope? && GraphError(nodes, error.value)
  {
    hide DependsOn, Overlaps, Scopes;
    var scopes := Scopes(nodes, keys);
    for j := 0 to |scopes|
      invariant forall a, b :: 0 <= a < b < j ==> Compatible(nodes, scopes[a], scopes[b])
    {
      for i := 0 to j
        invariant forall a :: 0 <= a < i ==> Compatible(nodes, scopes[a], scopes[j])
      {
        if Overlaps(scopes[j].1, scopes[i].1) {
          var ordered := DependencyOrdered(nodes, scopes[j].0, scopes[i].0);
          if !ordered {
            ListedIsScope(nodes, keys, scopes[i]);
            ListedIsScope(nodes, keys, scopes[j]);
            return Some(OverlappingScope(scopes[i].0, scopes[j].0, scopes[i].1, scopes[j].1));
          }
        }
      }
    }
    error := None;
  }

  datatype TaskDag = TaskDag(nodes: Nodes, order: seq<TaskId>)

  /** Overlapping scopes of different tasks only between dependency-ordered ones. */
  ghost predicate ScopesOrdered(nodes: Nodes) {
    forall x, y, s, t ::
      x in nodes && y in nodes && x != y && s in nodes[x].writeScopes && t in nodes[y].writeScopes && Overlaps(s, t) ==>
        DependsOn(nodes, x, y) || DependsOn(nodes, y, x)
  }

  /** What a validated graph is. */
  ghost predicate Validated(dag: TaskDag) {
    && dag.nodes != map[] && WellLinked(dag.nodes) && ScopesOrdered(dag.nodes)
    && (forall x :: x in dag.nodes ==> ValidNode(dag.nodes, dag.nodes[x]))
    && Topological(dag.nodes, dag.order) && forall other :: Topological(dag.nodes, other) ==> LexLeq(dag.order, other)
  }

  /** `validate_nodes`. */
  method ValidateNodes(nodes: Nodes) returns (error: Option<DagError>)
    requires forall x :: x in nodes ==> nodes[x].id == x
    ensures error.None? ==> (forall x :: x in nodes ==> ValidNode(nodes, nodes[x])) && ScopesOrdered(nodes)
    ensures error.Some? ==> GraphError(nodes, error.value)
  {
    var keys := AscendingKeys(nodes.Keys);
    for i := 0 to |keys|
      invariant forall k :: 0 <= k < i ==> ValidNode(nodes, nodes[keys[k]])
    {
      assert keys[i] in keys;
      error := CheckNode(nodes, nodes[keys[i]]);
      if error.Some? {
        assert NodeError(nodes, nodes[keys[i]], error.value);
        return;
      }
    }
    assert forall x :: x in nodes ==> x in keys;
    error := CheckScopes(nodes, keys);
    if error.None? {
      CompatibleIsOrdered(nodes, keys);
    }
  }

  lemma CompatibleIsOrdered(nodes: Nodes, keys: seq<TaskId>)
    requires forall x :: x in keys <==> x in nodes
    requires forall i, j :: 0 <= i < j < |Scopes(nodes, keys)| ==>
              Compatible(nodes, Scopes(nodes, keys)[i], Scopes(nodes, keys)[j])
    ensures ScopesOrdered(nodes)
  {
    hide Scopes, DependsOn, Overlaps;
    var scopes := Scopes(nodes, keys);
    forall x, y, s, t | x in nodes && y in nodes && x != y && s in nodes[x].writeScopes && t in nodes[y].writeScopes
                        && Overlaps(s, t)
      ensures DependsOn(nodes, x, y) || DependsOn(nodes, y, x)
    {
      EveryScopeListed(nodes, keys, x, s);
      EveryScopeListed(nodes, keys, y, t);
      var i :| 0 <= i < |scopes| && scopes[i] == (x, s);
      var j :| 0 <= j < |scopes| && scopes[j] == (y, t);
      OverlapsEitherWay(s, t);
      assert i < j || j < i;
    }
  }

  lemma OverlapsEitherWay(s: string, t: string)
    ensures Overlaps(s, t) <==> Overlaps(t, s)
  {
  }

  /** `nodes` holds exactly the listed nodes, by id. */
  ghost predicate Indexes(nodes: Nodes, list: seq<TaskNode>) {
    && |nodes| == |list|
    && (forall i :: 0 <= i < |list| ==> list[i].id in nodes && nodes[list[i].id] == list[i])
    && forall x :: x in nodes ==> exists i :: 0 <= i < |list| && list[i].id == x
  }

  lemma NothingIndexed()
    ensures Indexes(map[], [])
  {
  }

  lemma IndexedBefore(nodes: Nodes, list: seq<TaskNode>, j: nat)
    requires j < |list| && Indexes(nodes, list[..j]) && list[j].id in nodes
    ensures exists i :: 0 <= i < j && list[i].id == list[j].id
  {
    var i :| 0 <= i < j && list[..j][i].id == list[j].id;
    assert list[i].id == list[j].id;
  }

  /** The loop that indexes the nodes by their ids. */
  method IndexNodes(list: seq<TaskNode>) returns (r: Result<Nodes, DagError>)
    ensures r.Success? ==> Indexes(r.value, list)
    ensures r.Failure? ==>
              r.error.DuplicateTask? && exists i, j :: 0 <= i < j < |list| && list[i].id == list[j].id == r.error.task
  {
    hide Indexes;
    var indexed: Nodes := map[];
    NothingIndexed();
    for i := 0 to |list|
      invariant Indexes(indexed, list[..i])
    {
      if list[i].id in indexed {
        IndexedBefore(indexed, list, i);
        return Failure(DuplicateTask(list[i].id));
      }
      IndexesNext(indexed, list[..i], list[i]);
      assert list[..i + 1] == list[..i] + [list[i]];
      indexed := indexed[list[i].id := list[i]];
    }
    assert list[..|list|] == list;
    r := Success(indexed);
  }

  lemma NodesAreNamed(nodes: Nodes, list: seq<TaskNode>)
    requires Indexes(nodes, list) && list != []
    ensures nodes != map[] && forall x :: x in nodes ==> nodes[x].id == x
  {
    assert list[0].id in nodes;
  }

  /** `TaskDag::validate`: a valid graph of the listed nodes, or a true reason why there is none. */
  method Validate(list: seq<TaskNode>) returns (r: Result<TaskDag, DagError>)
    ensures r.Success? ==> Validated(r.value) && Indexes(r.value.nodes, list)
    ensures r.Failure? ==>
      match r.error
      case Empty => list == []
      case DuplicateTask(x) => exists i, j :: 0 <= i < j < |list| && list[i].id == list[j].id == x
      case Cycle => exists nodes :: Indexes(nodes, list) && !Acyclic(nodes)
      case _ => exists nodes :: Indexes(nodes, list) && GraphError(nodes, r.error)
  {
    hide ScopesOrdered, GraphError, Topological, LexLeq, Acyclic, Indexes;
    if list == [] { return Failure(Empty); }
    var listed := IndexNodes(list);
    if listed.Failure? { return Failure(listed.error); }
    var indexed := listed.value;
    NodesAreNamed(indexed, list);
    var error := ValidateNodes(indexed);
    if error.Some? {
      FaultOfAGraph(indexed, error.value);
      return Failure(error.value);
    }
    var order := Sort(indexed);
    r := if order.Success? then Success(TaskDag(indexed, order.value)) else Failure(order.error);
  }

  lemma FaultOfAGraph(nodes: Nodes, error: DagError)
    requires GraphError(nodes, error)
    ensures !error.Empty? && !error.DuplicateTask? && !error.Cycle?
  {
  }

  lemma IndexesNext(nodes: Nodes, list: seq<TaskNode>, n: TaskNode)
    requires Indexes(nodes, list) && n.id !in nodes
    ensures Indexes(nodes[n.id := n], list + [n])
  {
    var after, nodes' := list + [n], nodes[n.id := n];
    assert after[|list|] == n;
    forall x | x in nodes' ensures exists i :: 0 <= i < |after| && after[i].id == x {
      if x != n.id {
        var i :| 0 <= i < |list| && list[i].id == x;
        assert after[i].id == x;
      }
    }
  }

  // ---- working the graph off

  /** `ready_tasks`. */
  function ReadyTasks(dag: TaskDag, completed: set<TaskId>): set<TaskId> {
    set x | x in dag.nodes && x !in completed && forall y :: y in dag.nodes[x].dependencies ==> y in completed
  }

  /** `can_complete`. */
  predicate CanComplete(dag: TaskDag, x: TaskId, completed: set<TaskId>) {
    x !in completed && x in dag.nodes && forall y :: y in dag.nodes[x].dependencies ==> y in completed
  }

  /** The completed set after working the tasks off in this order, each when it can complete. */
  ghost predicate WorkedOff(dag: TaskDag, tasks: seq<TaskId>) {
    forall k :: 0 <= k < |tasks| ==> CanComplete(dag, tasks[k], Elements(tasks[..k]))
  }

  /** A completed set contains every transitive dependency of its tasks. */
  lemma {:induction false} CompletedIsClosed(dag: TaskDag, tasks: seq<TaskId>, x: TaskId, y: TaskId)
    requires WorkedOff(dag, tasks) && x in tasks && y in Dependencies(dag.nodes, x)
    ensures y in tasks
  {
    var k :| 0 <= k < |tasks| && tasks[k] == x;
    assert CanComplete(dag, tasks[k], Elements(tasks[..k]));
    assert y in Elements(tasks[..k]);
  }

  lemma {:induction false} CompletedChain(dag: TaskDag, tasks: seq<TaskId>, x: TaskId, y: TaskId, k: nat)
    requires WorkedOff(dag, tasks) && Chain(dag.nodes, x, y, k)
    requires x in tasks || (k > 0 && forall z :: z in Dependencies(dag.nodes, x) ==> z in tasks)
    ensures y in tasks
    decreases k
  {
    hide WorkedOff, Dependencies;
    if k > 0 {
      var z :| z in Dependencies(dag.nodes, x) && Chain(dag.nodes, z, y, k - 1);
      if x in tasks { CompletedIsClosed(dag, tasks, x, z); }
      CompletedChain(dag, tasks, z, y, k - 1);
    }
  }

  /** After any work a task is ready exactly when it is not completed and everything it
      depends on, however indirectly, is. */
  lemma ReadyExactly(dag: TaskDag, tasks: seq<TaskId>, x: TaskId)
    requires WorkedOff(dag, tasks)
    ensures x in ReadyTasks(dag, Elements(tasks)) <==>
              x in dag.nodes && x !in tasks && forall y :: DependsOn(dag.nodes, x, y) ==> y in tasks
    ensures x in ReadyTasks(dag, Elements(tasks)) <==> CanComplete(dag, x, Elements(tasks))
  {
    if x in ReadyTasks(dag, Elements(tasks)) {
      forall y | DependsOn(dag.nodes, x, y) ensures y in tasks {
        var k: nat :| k > 0 && Chain(dag.nodes, x, y, k);
        CompletedChain(dag, tasks, x, y, k);
      }
    } else if x in dag.nodes && x !in tasks {
      var y :| y in dag.nodes[x].dependencies && y !in tasks;
      assert y in Dependencies(dag.nodes, x) && Chain(dag.nodes, y, y, 0);
      assert Chain(dag.nodes, x, y, 1);
    }
  }

  /** Whatever has been completed so far, no path lies in the write scopes of two
      different tasks that are ready. */
  lemma ReadyTasksDoNotShareAPath(dag: TaskDag, tasks: seq<TaskId>, x: TaskId, y: TaskId, s: string, t: string,
                                  path: string)
    requires Validated(dag) && WorkedOff(dag, tasks)
    requires x in ReadyTasks(dag, Elements(tasks)) && y in ReadyTasks(dag, Elements(tasks)) && x != y
    requires s in dag.nodes[x].writeScopes && t in dag.nodes[y].writeScopes
    ensures !(InScope(path, s) && InScope(path, t))
  {
    if InScope(path, s) && InScope(path, t) {
      OverlapMeansSharedPath(s, t);
      if DependsOn(dag.nodes, x, y) {
        var k: nat :| k > 0 && Chain(dag.nodes, x, y, k);
        CompletedChain(dag, tasks, x, y, k);
      } else {
        var k: nat :| k > 0 && Chain(dag.nodes, y, x, k);
        CompletedChain(dag, tasks, y, x, k);
      }
    }
  }

  /** Until every task is completed, some task is ready. */
  lemma SomeTaskIsReady(dag: TaskDag, completed: set<TaskId>)
    requires Validated(dag) && !(dag.nodes.Keys <= completed)
    ensures ReadyTasks(dag, completed) != {}
  {
    var k := 0;
    while k < |dag.order| && dag.order[k] in completed
      invariant 0 <= k <= |dag.order| && forall i :: 0 <= i < k ==> dag.order[i] in completed
    {
      k := k + 1;
    }
    assert k < |dag.order| by {
      var x :| x in dag.nodes && x !in completed;
      assert x in dag.order;
    }
    assert dag.order[k] in dag.order;
    assert Free(dag.nodes, dag.order[..k], dag.order[k]);
    assert forall y :: y in dag.order[..k] ==> y in completed;
    var x := dag.order[k];
    assert forall y :: y in dag.nodes[x].dependencies ==> y in Dependencies(dag.nodes, x);
    assert x in ReadyTasks(dag, completed);
  }
}
