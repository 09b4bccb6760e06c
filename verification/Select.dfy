/** Deterministic next-task selection, `agent/select.py`. */
module Select {
  import opened Wrappers
  import opened TaskGraph
  import opened ExecutionState

  predicate Ready(task: SpecTask, completed: set<string>) {
    forall i :: 0 <= i < |task.dependsOn| ==> task.dependsOn[i] in completed
  }

  /** `missing_dependencies` */
  function MissingDependencies(task: SpecTask, completed: set<string>): (missing: seq<string>)
    ensures missing == [] <==> Ready(task, completed)
    ensures forall d :: d in missing <==> d in task.dependsOn && d !in completed
  {
    Without(task.dependsOn, completed)
  }

  function Without(s: seq<string>, drop: set<string>): (r: seq<string>)
    ensures forall d :: d in r <==> d in s && d !in drop
    ensures r == [] <==> forall i :: 0 <= i < |s| ==> s[i] in drop
  {
    if s == [] then []
    else if s[0] in drop then
      assert forall i :: 0 <= i < |s| - 1 ==> s[1..][i] == s[i + 1];
      Without(s[1..], drop)
    else [s[0]] + Without(s[1..], drop)
  }

  /** The dictionary lookup `known.get(id)`. */
  function TaskWithId(tasks: seq<SpecTask>, id: string): (t: Option<SpecTask>)
    ensures t.Some? ==> t.value in tasks && t.value.id == id
    ensures t.None? ==> forall x :: x in tasks ==> x.id != id
  {
    if tasks == [] then None
    else
      var last := tasks[|tasks| - 1];
      if last.id == id then Some(last) else TaskWithId(tasks[..|tasks| - 1], id)
  }

  /** Task `k` is the first, in definition order, that is neither completed nor blocked. */
  predicate FirstReadyAt(tasks: seq<SpecTask>, completed: set<string>, k: nat) {
    && k < |tasks|
    && tasks[k].id !in completed
    && Ready(tasks[k], completed)
    && forall j :: 0 <= j < k ==> tasks[j].id in completed || !Ready(tasks[j], completed)
  }

  function FirstReady(tasks: seq<SpecTask>, completed: set<string>): (t: Option<SpecTask>)
    ensures t.Some? ==> exists k: nat :: FirstReadyAt(tasks, completed, k) && tasks[k] == t.value
    ensures t.None? ==> forall x :: x in tasks ==> x.id in completed || !Ready(x, completed)
  {
    if tasks == [] then None
    else if tasks[0].id !in completed && Ready(tasks[0], completed) then
      assert FirstReadyAt(tasks, completed, 0);
      Some(tasks[0])
    else
      var rest := FirstReady(tasks[1..], completed);
      assert rest.Some? ==> exists k: nat :: FirstReadyAt(tasks, completed, k) && tasks[k] == rest.value by {
        if rest.Some? {
          var k: nat :| FirstReadyAt(tasks[1..], completed, k) && tasks[1..][k] == rest.value;
          forall j | 0 <= j < k + 1 ensures tasks[j].id in completed || !Ready(tasks[j], completed) {
            if j > 0 { assert tasks[1..][j - 1] == tasks[j]; }
          }
          assert FirstReadyAt(tasks, completed, k + 1);
        }
      }
      rest
  }

  predicate AllCompleted(tasks: seq<SpecTask>, completed: set<string>) {
    forall t :: t in tasks ==> t.id in completed
  }

  function SelectNextTask(spec: TaskSpec, state: State): Result<Option<SpecTask>, AgentError> {
    var completed := set x | x in state.completedTasks;
    if exists x :: x in completed && x !in Ids(spec.tasks) then Err(InvalidState)
    else if state.currentTask.Some? && state.currentTask.value !in completed then
      match TaskWithId(spec.tasks, state.currentTask.value)
      case None => Err(InvalidState)
      case Some(t) => if Ready(t, completed) then Ok(Some(t)) else Err(DependencyBlocked)
    else
      match FirstReady(spec.tasks, completed)
      case Some(t) => Ok(Some(t))
      case None => if AllCompleted(spec.tasks, completed) then Ok(None) else Err(DependencyBlocked)
  }

  /** The loop of `select_next_task`, collecting the blocked tasks it passes over. */
  method SelectInDefinitionOrder(spec: TaskSpec, state: State) returns (r: Result<Option<SpecTask>, AgentError>)
    ensures r == SelectNextTask(spec, state)
  {
    var completed := set x | x in state.completedTasks;
    if exists x :: x in completed && x !in Ids(spec.tasks) {
      return Err(InvalidState);
    }
    if state.currentTask.Some? && state.currentTask.value !in completed {
      var current := TaskWithId(spec.tasks, state.currentTask.value);
      if current.None? {
        return Err(InvalidState);
      }
      var missing := MissingDependencies(current.value, completed);
      if missing != [] {
        return Err(DependencyBlocked);
      }
      return Ok(Some(current.value));
    }
    var blocked: seq<(SpecTask, seq<string>)> := [];
    for i := 0 to |spec.tasks|
      invariant FirstReady(spec.tasks, completed) == FirstReady(spec.tasks[i..], completed)
      invariant blocked == [] <==> forall k :: 0 <= k < i ==> spec.tasks[k].id in completed
    {
      var task := spec.tasks[i];
      assert spec.tasks[i..][0] == task && spec.tasks[i..][1..] == spec.tasks[i + 1..];
      if task.id in completed {
        continue;
      }
      var missing := MissingDependencies(task, completed);
      if missing != [] {
        blocked := blocked + [(task, missing)];
        continue;
      }
      return Ok(Some(task));
    }
    if blocked != [] {
      return Err(DependencyBlocked);
    }
    return Ok(None);
  }

  // ---------- Linear extensions ----------

  /** A duplicate-free prefix of some execution order: each task follows its dependencies. */
  ghost predicate LinearExtension(spec: TaskSpec, completed: seq<string>) {
    && Distinct(completed)
    && (forall i :: 0 <= i < |completed| ==> completed[i] in Ids(spec.tasks))
    && forall i, t :: 0 <= i < |completed| && t in spec.tasks && t.id == completed[i] ==>
         Ready(t, set x | x in completed[..i])
  }

  lemma SameIdSameTask(tasks: seq<SpecTask>, a: SpecTask, b: SpecTask)
    requires Distinct(Ids(tasks)) && a in tasks && b in tasks && a.id == b.id
    ensures a == b
  {
    AdjacencyOf(tasks, a);
    AdjacencyOf(tasks, b);
  }

  /** Appending a ready task keeps a linear extension one. */
  lemma ExtendLinear(spec: TaskSpec, completed: seq<string>, task: SpecTask)
    requires Distinct(Ids(spec.tasks)) && LinearExtension(spec, completed)
    requires task in spec.tasks && task.id !in completed && Ready(task, set x | x in completed)
    ensures LinearExtension(spec, completed + [task.id])
  {
    var longer := completed + [task.id];
    var k :| 0 <= k < |spec.tasks| && spec.tasks[k] == task;
    assert Ids(spec.tasks)[k] == task.id;
    forall i, t | 0 <= i < |longer| && t in spec.tasks && t.id == longer[i]
      ensures Ready(t, set x | x in longer[..i])
    {
      if i < |completed| {
        assert longer[..i] == completed[..i];
      } else {
        assert longer[..i] == completed;
        SameIdSameTask(spec.tasks, t, task);
      }
    }
  }

  /**
   * In an accepted graph an incomplete spec always has a ready task, so selection in
   * definition order is never blocked, and it answers `None` only when all is done.
   */
  lemma NeverBlocked(spec: TaskSpec, completed: set<string>)
    requires ValidTasks(spec.tasks)
    ensures FirstReady(spec.tasks, completed).None? <==> AllCompleted(spec.tasks, completed)
  {
    var g := Adjacency(spec.tasks);
    if !AllCompleted(spec.tasks, completed) {
      var u := set t | t in spec.tasks && t.id !in completed :: t.id;
      AdjacencyKeys(spec.tasks);
      forall id | id in u ensures id in g {
        var t :| t in spec.tasks && t.id == id;
        AdjacencyOf(spec.tasks, t);
      }
      var t0 :| t0 in spec.tasks && t0.id !in completed;
      assert t0.id in u;
      AcyclicHasReady(g, u);
      var a :| a in u && !HasDependencyIn(g, u, a);
      var t :| t in spec.tasks && t.id == a && t.id !in completed;
      AdjacencyOf(spec.tasks, t);
      forall i | 0 <= i < |t.dependsOn| ensures t.dependsOn[i] in completed {
        var d := t.dependsOn[i];
        assert d in t.dependsOn && d in Ids(spec.tasks);
        var k :| 0 <= k < |spec.tasks| && Ids(spec.tasks)[k] == d;
        assert d !in u && spec.tasks[k] in spec.tasks;
      }
      assert Ready(t, completed);
    }
  }
}
