/** Task Specs and the dependency-graph check of `agent/spec.py`. */
module TaskGraph {
  import opened Wrappers

  datatype SpecTask = SpecTask(id: string, dependsOn: seq<string>)

  /** The part of a parsed Task Spec that the orchestrator's control flow reads. */
  datatype TaskSpec = TaskSpec(
    id: string,
    specPath: string,
    specSha256: string,
    baseBranch: string,
    targetBranch: string,
    repairAttemptLimit: nat,
    reviewAttemptLimit: nat,
    objective: string,
    forbiddenActions: string,
    tasks: seq<SpecTask>)

  datatype WorkUnitIdentity = WorkUnitIdentity(
    specId: string, specPath: string, specSha256: string, baseBranch: string, targetBranch: string)

  /** `work_unit_identity`, which refuses a spec whose path or digest is not bound. */
  function IdentityOf(spec: TaskSpec): Option<WorkUnitIdentity> {
    if spec.specPath == "" || spec.specSha256 == "" then None
    else Some(WorkUnitIdentity(spec.id, spec.specPath, spec.specSha256, spec.baseBranch, spec.targetBranch))
  }

  type Graph = map<string, seq<string>>

  function Ids(tasks: seq<SpecTask>): seq<string> {
    seq(|tasks|, i requires 0 <= i < |tasks| => tasks[i].id)
  }

  ghost predicate Distinct<T(!new)>(s: seq<T>) {
    forall i, j :: 0 <= i < j < |s| ==> s[i] != s[j]
  }

  /** Python's dictionary comprehension: a later task with the same id wins. */
  function Adjacency(tasks: seq<SpecTask>): Graph {
    if tasks == [] then map[]
    else
      var last := tasks[|tasks| - 1];
      Adjacency(tasks[..|tasks| - 1])[last.id := last.dependsOn]
  }

  predicate Edge(g: Graph, a: string, b: string) {
    a in g && b in g[a]
  }

  ghost predicate IsPath(g: Graph, p: seq<string>) {
    |p| > 0 && forall i :: 0 <= i < |p| - 1 ==> Edge(g, p[i], p[i + 1])
  }

  ghost predicate Cycle(g: Graph, a: string, p: seq<string>) {
    IsPath(g, p) && |p| >= 2 && p[0] == a && p[|p| - 1] == a
  }

  /** `a` depends on itself through one or more edges. */
  ghost predicate SelfReaching(g: Graph, a: string) {
    exists p :: Cycle(g, a, p)
  }

  ghost predicate Acyclic(g: Graph) {
    forall a :: !SelfReaching(g, a)
  }

  ghost predicate Closed(g: Graph) {
    forall a, b :: Edge(g, a, b) ==> b in g
  }

  /** Every task of `order` comes after all the tasks it depends on. */
  ghost predicate TopologicalOrder(g: Graph, order: seq<string>) {
    && Distinct(order)
    && forall i :: 0 <= i < |order| ==>
         order[i] in g && forall d :: d in g[order[i]] ==> d in order[..i]
  }

  ghost predicate KnownDependencies(tasks: seq<SpecTask>) {
    forall t, d :: t in tasks && d in t.dependsOn ==> d in Ids(tasks)
  }

  /** What an accepted Task Spec's task list satisfies. */
  ghost predicate ValidTasks(tasks: seq<SpecTask>) {
    Distinct(Ids(tasks)) && KnownDependencies(tasks) && Acyclic(Adjacency(tasks))
  }

  lemma {:induction false} AdjacencyKeys(tasks: seq<SpecTask>)
    ensures Adjacency(tasks).Keys == set x | x in Ids(tasks)
  {
    if tasks != [] {
      var front := tasks[..|tasks| - 1];
      AdjacencyKeys(front);
      assert Ids(tasks) == Ids(front) + [tasks[|tasks| - 1].id];
    }
  }

  lemma {:induction false} AdjacencyOf(tasks: seq<SpecTask>, t: SpecTask)
    requires Distinct(Ids(tasks)) && t in tasks
    ensures t.id in Adjacency(tasks) && Adjacency(tasks)[t.id] == t.dependsOn
  {
    var front, last := tasks[..|tasks| - 1], tasks[|tasks| - 1];
    assert Ids(tasks) == Ids(front) + [last.id];
    assert Distinct(Ids(front)) by {
      assert Ids(front) == Ids(tasks)[..|front|];
    }
    if t != last {
      var k :| 0 <= k < |front| && front[k] == t;
      assert Ids(tasks)[k] == t.id && Ids(tasks)[|tasks| - 1] == last.id;
      AdjacencyOf(front, t);
    }
  }

  /** The adjacency of a list with known dependencies has no edge leaving it. */
  lemma AdjacencyClosed(tasks: seq<SpecTask>)
    requires Distinct(Ids(tasks)) && KnownDependencies(tasks)
    ensures Closed(Adjacency(tasks))
  {
    var g := Adjacency(tasks);
    AdjacencyKeys(tasks);
    forall a, b | Edge(g, a, b) ensures b in g {
      var k :| 0 <= k < |tasks| && Ids(tasks)[k] == a;
      AdjacencyOf(tasks, tasks[k]);
    }
  }

  function IndexOf(order: seq<string>, x: string): (i: nat)
    requires x in order
    ensures i < |order| && order[i] == x
  {
    if order[0] == x then 0 else 1 + IndexOf(order[1..], x)
  }

  /** A position in a topological order is a rank that strictly falls along every edge. */
  lemma RankFalls(g: Graph, order: seq<string>, a: string, b: string)
    requires TopologicalOrder(g, order) && Edge(g, a, b) && a in order
    ensures b in order && IndexOf(order, b) < IndexOf(order, a)
  {
    var i := IndexOf(order, a);
    assert b in order[..i];
    var j :| 0 <= j < i && order[j] == b;
    assert IndexOf(order, b) == j;
  }

  lemma {:induction false} RankFallsAlongPath(g: Graph, order: seq<string>, p: seq<string>)
    requires TopologicalOrder(g, order) && IsPath(g, p) && |p| >= 2 && p[0] in order
    ensures p[|p| - 1] in order && IndexOf(order, p[|p| - 1]) < IndexOf(order, p[0])
    decreases |p|
  {
    assert Edge(g, p[0], p[1]);
    RankFalls(g, order, p[0], p[1]);
    if |p| > 2 {
      forall i | 0 <= i < |p[1..]| - 1 ensures Edge(g, p[1..][i], p[1..][i + 1]) {
        assert Edge(g, p[i + 1], p[i + 2]);
      }
      RankFallsAlongPath(g, order, p[1..]);
    }
  }

  /** A graph with a complete topological order has no task that reaches itself. */
  lemma OrderedIsAcyclic(g: Graph, order: seq<string>)
    requires TopologicalOrder(g, order) && (forall a :: a in g ==> a in order)
    ensures Acyclic(g)
  {
    forall a ensures !SelfReaching(g, a) {
      if SelfReaching(g, a) {
        var p :| Cycle(g, a, p);
        assert Edge(g, p[0], p[1]);
        RankFallsAlongPath(g, order, p);
      }
    }
  }

  // ---------- An acyclic graph always has a ready task ----------

  ghost predicate HasDependencyIn(g: Graph, u: set<string>, a: string) {
    a in g && exists b :: b in g[a] && b in u
  }

  /** Walks `n` edges without leaving `u`, whose members all have a dependency in `u`. */
  lemma {:induction false} WalkInside(g: Graph, u: set<string>, start: string, n: nat) returns (p: seq<string>)
    requires start in u && forall a :: a in u ==> HasDependencyIn(g, u, a)
    ensures IsPath(g, p) && |p| == n + 1 && forall x :: x in p ==> x in u
  {
    if n == 0 {
      p := [start];
    } else {
      var q := WalkInside(g, u, start, n - 1);
      var a := q[|q| - 1];
      assert HasDependencyIn(g, u, a);
      var b :| b in g[a] && b in u;
      p := q + [b];
      assert Edge(g, a, b);
      forall i | 0 <= i < |p| - 1 ensures Edge(g, p[i], p[i + 1]) {
        if i < |q| - 1 { assert Edge(g, q[i], q[i + 1]); }
      }
    }
  }

  lemma {:induction false} Pigeonhole(p: seq<string>, u: set<string>) returns (i: nat, j: nat)
    requires (forall x :: x in p ==> x in u) && |p| > |u|
    ensures i < j < |p| && p[i] == p[j]
    decreases |p|
  {
    var n := |p| - 1;
    assert p[n] in u;
    if p[n] in p[..n] {
      i :| 0 <= i < n && p[i] == p[n];
      j := n;
    } else {
      i, j := Pigeonhole(p[..n], u - {p[n]});
    }
  }

  /** Some member of every non-empty set of tasks has no dependency left inside the set. */
  lemma AcyclicHasReady(g: Graph, u: set<string>)
    requires Acyclic(g) && u != {} && u <= g.Keys
    ensures exists a :: a in u && !HasDependencyIn(g, u, a)
  {
    if forall a :: a in u ==> HasDependencyIn(g, u, a) {
      var start :| start in u;
      var p := WalkInside(g, u, start, |u|);
      var i, j := Pigeonhole(p, u);
      var c := p[i..j + 1];
      forall k | 0 <= k < |c| - 1 ensures Edge(g, c[k], c[k + 1]) {
        assert Edge(g, p[i + k], p[i + k + 1]);
      }
      assert Cycle(g, p[i], c);
      assert SelfReaching(g, p[i]);
    }
  }

  // ---------- The depth-first search ----------

  /** The two node sets that `_assert_task_graph` shares with its nested `dfs`. */
  class DependencySearch {
    const adjacency: Graph
    var visiting: set<string>
    var visited: set<string>
    ghost var stack: seq<string>
    ghost var finished: seq<string>

    ghost predicate Valid()
      reads this
    {
      && Closed(adjacency)
      && visiting == (set x | x in stack)
      && visited == (set x | x in finished)
      && visiting !! visited
      && visiting <= adjacency.Keys
      && TopologicalOrder(adjacency, finished)
      && (stack != [] ==> IsPath(adjacency, stack))
    }

    constructor (g: Graph)
      requires Closed(g)
      ensures Valid() && adjacency == g && stack == [] && finished == []
    {
      adjacency := g;
      visiting, visited := {}, {};
      stack, finished := [], [];
    }

    /** Returns the node at which a dependency cycle was closed, if any. */
    method Dfs(node: string) returns (cycle: Option<string>)
      requires Valid() && node in adjacency
      requires stack != [] ==> Edge(adjacency, stack[|stack| - 1], node)
      modifies this
      ensures cycle.Some? ==> SelfReaching(adjacency, cycle.value)
      ensures cycle.None? ==> Valid() && stack == old(stack) && old(finished) <= finished
      ensures cycle.None? ==> node in visited && visiting == old(visiting)
      decreases adjacency.Keys - visiting
    {
      if node in visited {
        return None;
      }
      if node in visiting {
        ghost var k :| 0 <= k < |stack| && stack[k] == node;
        ghost var c := stack[k..] + [node];
        forall i | 0 <= i < |c| - 1 ensures Edge(adjacency, c[i], c[i + 1]) {
          if i < |c| - 2 { assert Edge(adjacency, stack[k + i], stack[k + i + 1]); }
        }
        assert Cycle(adjacency, node, c);
        return Some(node);
      }
      visiting := visiting + {node};
      ghost var before := stack;
      stack := stack + [node];
      forall i | 0 <= i < |stack| - 1 ensures Edge(adjacency, stack[i], stack[i + 1]) {
        if i < |before| - 1 { assert Edge(adjacency, before[i], before[i + 1]); }
      }
      var deps := adjacency[node];
      for i := 0 to |deps|
        invariant Valid() && stack == before + [node] && visiting == old(visiting) + {node}
        invariant old(finished) <= finished
        invariant forall k :: 0 <= k < i ==> deps[k] in visited
      {
        assert Edge(adjacency, node, deps[i]);
        var r := Dfs(deps[i]);
        if r.Some? {
          return r;
        }
      }
      assert node in stack;
      visiting := visiting - {node};
      visited := visited + {node};
      stack := before;
      ghost var done := finished;
      finished := finished + [node];
      forall i | 0 <= i < |finished|
        ensures finished[i] in adjacency && forall d :: d in adjacency[finished[i]] ==> d in finished[..i]
      {
        assert finished[..|done|] == done;
        if i < |done| { assert finished[..i] == done[..i]; }
      }
      return None;
    }
  }

  datatype GraphVerdict =
    | ValidGraph
    | DuplicateTaskId
    | UnknownDependency(task: string, dependency: string)
    | DependencyCycle(node: string)

  /** `_assert_task_graph`: rejects exactly the task lists that are not `ValidTasks`. */
  method AssertTaskGraph(tasks: seq<SpecTask>) returns (v: GraphVerdict)
    ensures v.DuplicateTaskId? <==> !Distinct(Ids(tasks))
    ensures v.UnknownDependency? <==> Distinct(Ids(tasks)) && !KnownDependencies(tasks)
    ensures v.UnknownDependency? ==>
              Edge(Adjacency(tasks), v.task, v.dependency) && v.dependency !in Ids(tasks)
    ensures v.DependencyCycle? <==>
              Distinct(Ids(tasks)) && KnownDependencies(tasks) && exists a :: SelfReaching(Adjacency(tasks), a)
    ensures v.DependencyCycle? ==> SelfReaching(Adjacency(tasks), v.node)
    ensures v.ValidGraph? <==> ValidTasks(tasks)
    ensures v.ValidGraph? ==>
              exists order :: TopologicalOrder(Adjacency(tasks), order) && forall a :: a in Adjacency(tasks) ==> a in order
  {
    var ids := Ids(tasks);
    var known: set<string> := {};
    for i := 0 to |ids|
      invariant known == set x | x in ids[..i]
      invariant Distinct(ids[..i])
    {
      if ids[i] in known {
        ghost var k :| 0 <= k < i && ids[k] == ids[i];
        return DuplicateTaskId;
      }
      known := known + {ids[i]};
    }
    assert ids[..|ids|] == ids;
    for i := 0 to |tasks|
      invariant forall k, d :: 0 <= k < i && d in tasks[k].dependsOn ==> d in ids
    {
      var t := tasks[i];
      AdjacencyOf(tasks, t);
      for j := 0 to |t.dependsOn|
        invariant forall k :: 0 <= k < j ==> t.dependsOn[k] in ids
      {
        if t.dependsOn[j] !in known {
          assert t in tasks && t.dependsOn[j] in t.dependsOn;
          return UnknownDependency(t.id, t.dependsOn[j]);
        }
      }
    }
    AdjacencyClosed(tasks);
    AdjacencyKeys(tasks);
    var search := new DependencySearch(Adjacency(tasks));
    for i := 0 to |ids|
      invariant search.Valid() && search.stack == [] && search.adjacency == Adjacency(tasks)
      invariant forall k :: 0 <= k < i ==> ids[k] in search.visited
    {
      var r := search.Dfs(ids[i]);
      if r.Some? {
        return DependencyCycle(r.value);
      }
    }
    OrderedIsAcyclic(Adjacency(tasks), search.finished);
    return ValidGraph;
  }
}
