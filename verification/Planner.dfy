/** `load_tasks` and `select` of `harness/planner.py`: which plans are accepted, and that accepted plans make progress. */
module Planner {
  import opened Ordering
  import opened ClosureWalk

  /**
   A task: its lane, whether it waits for LOCAL-CLOSURE, and the tasks its implementation
   and verification depend on, in whatever order their set is iterated.
   */
  datatype Task = Task(local: bool, afterClosure: bool, deps: seq<Id>, capabilities: set<Id>, priority: nat)

  type Tasks = map<Id, Task>

  function DependencyGraph(tasks: Tasks): Graph<Id> {
    map i | i in tasks :: tasks[i].deps
  }

  datatype Defect =
    | InvalidRow(id: Id)
    | DuplicateTask(id: Id)
    | DependencyCycle(id: Id)
    | ClosureOnLocal(id: Id)
    | UnknownDependency(id: Id, on: Id)
    | LocalBlockedByExternal(id: Id, on: Id)

  ghost predicate EdgeOk(tasks: Tasks, i: Id, d: Id)
    requires i in tasks
  {
    d in tasks && (tasks[i].local ==> tasks[d].local)
  }

  ghost predicate EdgesOk(tasks: Tasks, i: Id)
    requires i in tasks
  {
    !(tasks[i].local && tasks[i].afterClosure) && forall d :: d in tasks[i].deps ==> EdgeOk(tasks, i, d)
  }

  /** A plan that may be loaded. */
  ghost predicate Sound(tasks: Tasks) {
    forall i: Id :: i in tasks ==> EdgesOk(tasks, i) && !Reaches(DependencyGraph(tasks), i, i)
  }

  ghost predicate Real(tasks: Tasks, f: Defect) {
    match f
    case DependencyCycle(i) => Reaches(DependencyGraph(tasks), i, i)
    case ClosureOnLocal(i) => i in tasks && tasks[i].local && tasks[i].afterClosure
    case UnknownDependency(i, d) => i in tasks && d in tasks[i].deps && d !in tasks
    case LocalBlockedByExternal(i, d) => i in tasks && tasks[i].local && d in tasks[i].deps && d in tasks && !tasks[d].local
    case _ => false
  }

  lemma {:induction false} RealIsUnsound(tasks: Tasks, f: Defect)
    requires Real(tasks, f)
    ensures !Sound(tasks)
  {
  }

  // ---------------------------------------------------------------- loading

  /** `seen` and `active` as the nested `visit` updates them; `order` lists what is seen, dependencies first. */
  class Loader {
    const tasks: Tasks
    var seen: set<Id>
    var active: set<Id>
    ghost var order: seq<Id>

    constructor (tasks: Tasks)
      ensures this.tasks == tasks && Tracks([]) && seen == {}
    {
      this.tasks := tasks;
      seen, active, order := {}, {}, [];
    }

    ghost predicate Tracks(stack: seq<Id>)
      reads this
    {
      && active == Elems(stack) && seen == Elems(order) && Apart(stack, order)
      && (forall x :: x in stack ==> x in tasks)
      && (stack != [] ==> IsPath(DependencyGraph(tasks), stack))
      && Topological(DependencyGraph(tasks), order) && (forall x :: x in seen ==> x in tasks && EdgesOk(tasks, x))
    }

    method Visit(i: Id, ghost stack: seq<Id>) returns (f: Option<Defect>)
      requires Tracks(stack) && i in tasks
      requires stack != [] ==> IsPath(DependencyGraph(tasks), stack + [i])
      modifies this
      ensures f.None? ==> Tracks(stack) && i in seen && old(seen) <= seen
      ensures f.Some? ==> Real(tasks, f.value)
      decreases tasks.Keys - Elems(stack), 1
    {
      if i in active {
        ActiveIsCycle(tasks, stack, i);
        return Some(DependencyCycle(i));
      }
      if i in seen { return None; }
      active := active + {i};
      ApartMoves(stack, order, i);
      ghost var deeper := stack + [i];
      assert i in tasks.Keys - Elems(stack) && i !in tasks.Keys - Elems(deeper);
      f := VisitDeps(i, deeper);
      if f.None? {
        ApartMoves(stack, order, i);
        TopologicalExtends(DependencyGraph(tasks), order, i);
        active := active - {i};
        seen := seen + {i};
        order := order + [i];
      }
    }

    /** The loop over the dependencies of `i`, the innermost open visit. */
    method VisitDeps(i: Id, ghost stack: seq<Id>) returns (f: Option<Defect>)
      requires Tracks(stack) && i in tasks && stack != [] && stack[|stack| - 1] == i
      modifies this
      ensures f.None? ==> Tracks(stack) && old(seen) <= seen && EdgesOk(tasks, i) && forall d :: d in tasks[i].deps ==> d in seen
      ensures f.Some? ==> Real(tasks, f.value)
      decreases tasks.Keys - Elems(stack), 2
    {
      var t := tasks[i];
      if t.afterClosure && t.local { return Some(ClosureOnLocal(i)); }
      for k := 0 to |t.deps|
        invariant Tracks(stack) && old(seen) <= seen
        invariant forall j :: 0 <= j < k ==> EdgeOk(tasks, i, t.deps[j]) && t.deps[j] in seen
      {
        var d := t.deps[k];
        assert d in t.deps;
        if d !in tasks { return Some(UnknownDependency(i, d)); }
        if t.local && !tasks[d].local { return Some(LocalBlockedByExternal(i, d)); }
        PathExtends(DependencyGraph(tasks), stack, d);
        f := Visit(d, stack);
        if f.Some? { return; }
      }
      f := None;
    }
  }

  lemma {:induction false} ActiveIsCycle(tasks: Tasks, stack: seq<Id>, i: Id)
    requires i in stack && IsPath(DependencyGraph(tasks), stack + [i])
    ensures Reaches(DependencyGraph(tasks), i, i)
  {
    var k :| 0 <= k < |stack| && stack[k] == i;
    PathReaches(DependencyGraph(tasks), stack + [i], k, |stack|);
  }

  lemma {:induction false} TopologicalExtends(g: Graph<Id>, order: seq<Id>, x: Id)
    requires Topological(g, order) && x in g && x !in order && forall c :: c in g[x] ==> c in order
    ensures Topological(g, order + [x])
  {
    var all := order + [x];
    assert all[..|order|] == order;
    assert forall k :: 0 <= k < |order| ==> all[..k] == order[..k];
  }

  /** A row of the plan file; `wellFormed` stands for its field and lane checks. */
  datatype Row = Row(id: Id, wellFormed: bool, task: Task)

  function RowIds(rows: seq<Row>): seq<Id> {
    seq(|rows|, k requires 0 <= k < |rows| => rows[k].id)
  }

  ghost predicate Holds(tasks: Tasks, rows: seq<Row>) {
    && (forall k :: 0 <= k < |rows| ==> rows[k].id in tasks && tasks[rows[k].id] == rows[k].task)
    && forall i :: i in tasks ==> i in RowIds(rows)
  }

  datatype Loaded = Plan(tasks: Tasks) | Rejected(defect: Defect)

  /**
   `load_tasks`: a plan is loaded exactly when its rows are well formed with distinct ids and
   the plan they spell is sound; a rejection over the graph names a real defect of it.
   */
  method LoadTasks(rows: seq<Row>) returns (r: Loaded)
    ensures r.Plan? ==> Holds(r.tasks, rows) && Sound(r.tasks)
    ensures r.Plan? ==> Distinct(RowIds(rows)) && forall k :: 0 <= k < |rows| ==> rows[k].wellFormed
    ensures r.Rejected? ==>
              match r.defect
              case InvalidRow(i) => exists k :: 0 <= k < |rows| && rows[k].id == i && !rows[k].wellFormed
              case DuplicateTask(i) => !Distinct(RowIds(rows))
              case f => exists tasks :: Holds(tasks, rows) && Real(tasks, f) && !Sound(tasks)
  {
    hide Sound;
    hide Real;
    var tasks: Tasks := map[];
    for k := 0 to |rows|
      invariant Holds(tasks, rows[..k]) && Distinct(RowIds(rows)[..k])
      invariant forall j :: 0 <= j < k ==> rows[j].wellFormed
    {
      var row := rows[k];
      assert RowIds(rows)[..k + 1] == RowIds(rows)[..k] + [row.id] && RowIds(rows)[..k] == RowIds(rows[..k]);
      if !row.wellFormed { return Rejected(InvalidRow(row.id)); }
      if row.id in tasks {
        assert RowIds(rows)[k] == row.id && row.id in RowIds(rows)[..k];
        return Rejected(DuplicateTask(row.id));
      }
      HoldsMore(tasks, rows, k);
      tasks := tasks[row.id := row.task];
    }
    assert rows[..|rows|] == rows && RowIds(rows)[..|rows|] == RowIds(rows);
    var f := CheckGraph(tasks);
    if f.Some? {
      RealIsUnsound(tasks, f.value);
      return Rejected(f.value);
    }
    return Plan(tasks);
  }

  lemma {:induction false} HoldsMore(tasks: Tasks, rows: seq<Row>, k: nat)
    requires k < |rows| && Holds(tasks, rows[..k]) && rows[k].id !in tasks
    ensures Holds(tasks[rows[k].id := rows[k].task], rows[..k + 1])
  {
    var more := tasks[rows[k].id := rows[k].task];
    assert RowIds(rows[..k + 1]) == RowIds(rows[..k]) + [rows[k].id];
    forall j | 0 <= j < k + 1
      ensures rows[j].id in more && more[rows[j].id] == rows[j].task
    {
      if j < k {
        assert rows[..k][j] == rows[j];
      }
    }
  }

  /** The visits: `None` exactly for a sound plan. */
  method CheckGraph(tasks: Tasks) returns (f: Option<Defect>)
    ensures f.None? <==> Sound(tasks)
    ensures f.Some? ==> Real(tasks, f.value)
  {
    var loader := new Loader(tasks);
    var rest := tasks.Keys;
    while rest != {}
      invariant loader.Tracks([]) && loader.tasks == tasks && fresh(loader)
      invariant rest <= tasks.Keys && tasks.Keys - rest <= loader.seen
    {
      var i :| i in rest;
      f := loader.Visit(i, []);
      if f.Some? {
        RealIsUnsound(tasks, f.value);
        return;
      }
      rest := rest - {i};
    }
    ListedIsSound(tasks, loader.order);
    f := None;
  }

  lemma {:induction false} ListedIsSound(tasks: Tasks, order: seq<Id>)
    requires Topological(DependencyGraph(tasks), order)
    requires forall i :: i in tasks ==> i in order && EdgesOk(tasks, i)
    ensures Sound(tasks)
  {
    forall i | i in tasks
      ensures !Reaches(DependencyGraph(tasks), i, i)
    {
      TopologicalAcyclic(DependencyGraph(tasks), order, i);
    }
  }

  // ---------------------------------------------------------------- what a sound plan guarantees

  /** No LOCAL task depends on an EXTERNAL one, however indirectly. */
  lemma {:induction false} LocalNeverNeedsExternal(tasks: Tasks, a: Id, b: Id)
    requires Sound(tasks) && a in tasks && tasks[a].local && Reaches(DependencyGraph(tasks), a, b)
    ensures b in tasks && tasks[b].local && !tasks[b].afterClosure
  {
    var locals := set i | i in tasks && tasks[i].local;
    assert Closed(DependencyGraph(tasks), locals) by {
      forall x, c | x in locals && c in DependencyGraph(tasks)[x]
        ensures c in locals
      {
        assert EdgesOk(tasks, x) && EdgeOk(tasks, x, c);
      }
    }
    assert forall c :: c in DependencyGraph(tasks)[a] ==> c in locals by {
      assert a in locals;
    }
    ReachesStays(DependencyGraph(tasks), a, b, locals);
    assert EdgesOk(tasks, b);
  }

  /** A sound plan can be listed with dependencies first. */
  lemma {:induction false} SoundOrder(tasks: Tasks) returns (order: seq<Id>)
    requires Sound(tasks)
    ensures Topological(DependencyGraph(tasks), order) && forall i :: i in tasks ==> i in order
  {
    var g := DependencyGraph(tasks);
    var start := Sorted(tasks.Keys);
    WalkHasRoom(g, |g|, [], [], start);
    var r := Walk(g, |g|, [], [], start);
    if !r.Done? {
      var p := WalkBlames(g, |g|, [], [], start);
      BlamedIsUnsound(tasks, p, r);
    }
    WalkTopological(g, |g|, [], [], start);
    order := r.order;
  }

  lemma {:induction false} BlamedIsUnsound(tasks: Tasks, p: seq<Id>, r: Outcome<Id>)
    requires IsPath(DependencyGraph(tasks), p) && p[0] in tasks && (r.Missing? || r.Cycle?) && p[|p| - 1] == r.at
    requires if r.Missing? then r.at !in tasks else r.at in p[..|p| - 1]
    ensures !Sound(tasks)
  {
    var g := DependencyGraph(tasks);
    if r.Missing? {
      var a := p[|p| - 2];
      assert a in g && p[|p| - 1] in g[a];
      assert !EdgeOk(tasks, a, r.at);
      assert !EdgesOk(tasks, a);
    } else {
      var k :| 0 <= k < |p| - 1 && p[k] == r.at;
      PathReaches(g, p, k, |p| - 1);
      ReachesFromKnown(g, r.at, r.at);
    }
  }

  predicate Ready(tasks: Tasks, capabilities: set<Id>, completed: set<Id>, i: Id) {
    && i in tasks && i !in completed && tasks[i].local && !tasks[i].afterClosure
    && (forall d :: d in tasks[i].deps ==> d in completed) && tasks[i].capabilities <= capabilities
  }

  /** LOCAL tasks not yet completed. */
  function Unfinished(tasks: Tasks, completed: set<Id>): set<Id> {
    set i | i in tasks && tasks[i].local && i !in completed
  }

  ghost predicate Capable(tasks: Tasks, capabilities: set<Id>) {
    forall i :: i in tasks && tasks[i].local ==> tasks[i].capabilities <= capabilities
  }

  /** Progress: whatever is completed, an unfinished LOCAL task means that some LOCAL task is ready. */
  lemma {:induction false} SomethingIsReady(tasks: Tasks, capabilities: set<Id>, completed: set<Id>)
    requires Sound(tasks) && Capable(tasks, capabilities) && Unfinished(tasks, completed) != {}
    ensures exists i :: Ready(tasks, capabilities, completed, i)
  {
    var order := SoundOrder(tasks);
    var u :| u in Unfinished(tasks, completed);
    assert u in order;
    var k := FirstUnfinished(tasks, completed, order);
    var i := order[k];
    assert EdgesOk(tasks, i);
    forall d | d in tasks[i].deps
      ensures d in completed
    {
      assert EdgeOk(tasks, i, d);
      assert d in DependencyGraph(tasks)[i] && d in order[..k];
    }
    assert Ready(tasks, capabilities, completed, i);
  }

  lemma {:induction false} FirstUnfinished(tasks: Tasks, completed: set<Id>, order: seq<Id>) returns (k: nat)
    requires exists u :: u in order && u in Unfinished(tasks, completed)
    ensures k < |order| && order[k] in Unfinished(tasks, completed)
    ensures forall d :: d in order[..k] ==> d !in Unfinished(tasks, completed)
  {
    k := 0;
    while order[k] !in Unfinished(tasks, completed)
      invariant k < |order| && forall j :: 0 <= j < k ==> order[j] !in Unfinished(tasks, completed)
      invariant exists u :: u in order[k..] && u in Unfinished(tasks, completed)
      decreases |order| - k
    {
      assert order[k..] == [order[k]] + order[k + 1..];
      k := k + 1;
    }
  }

  /** Completions one after the other, each of a task ready at that time. */
  ghost predicate Working(tasks: Tasks, capabilities: set<Id>, run: seq<set<Id>>) {
    run != [] && forall k :: 0 <= k < |run| - 1 ==> Finishes(tasks, capabilities, run[k], run[k + 1])
  }

  ghost predicate Finishes(tasks: Tasks, capabilities: set<Id>, before: set<Id>, after: set<Id>) {
    exists i :: Ready(tasks, capabilities, before, i) && after == before + {i}
  }

  /**
   Every run of completions shrinks the unfinished LOCAL tasks one by one, so it is no longer
   than they were many, and it stops only at local closure.
   */
  lemma {:induction false} WorkReachesClosure(tasks: Tasks, capabilities: set<Id>, run: seq<set<Id>>)
    requires Sound(tasks) && Capable(tasks, capabilities) && Working(tasks, capabilities, run)
    ensures |Unfinished(tasks, run[|run| - 1])| + |run| - 1 == |Unfinished(tasks, run[0])|
    ensures Unfinished(tasks, run[|run| - 1]) == {} || exists next :: Working(tasks, capabilities, run + [next])
  {
    hide Sound;
    hide Ready;
    var last := run[|run| - 1];
    if |run| > 1 {
      var shorter := run[..|run| - 1];
      assert Working(tasks, capabilities, shorter);
      WorkReachesClosure(tasks, capabilities, shorter);
      assert Finishes(tasks, capabilities, run[|run| - 2], last);
      OneLess(tasks, capabilities, run[|run| - 2], last);
    }
    if Unfinished(tasks, last) != {} {
      SomethingIsReady(tasks, capabilities, last);
      var i :| Ready(tasks, capabilities, last, i);
      var next := last + {i};
      assert Finishes(tasks, capabilities, last, next);
      assert Working(tasks, capabilities, run + [next]);
    }
  }

  lemma {:induction false} OneLess(tasks: Tasks, capabilities: set<Id>, before: set<Id>, after: set<Id>)
    requires Finishes(tasks, capabilities, before, after)
    ensures |Unfinished(tasks, after)| + 1 == |Unfinished(tasks, before)|
  {
    var i :| Ready(tasks, capabilities, before, i) && after == before + {i};
    assert Unfinished(tasks, before) == Unfinished(tasks, after) + {i};
  }

  // ---------------------------------------------------------------- selection

  predicate Sooner(tasks: Tasks, a: Id, b: Id)
    requires a in tasks && b in tasks
  {
    tasks[a].priority < tasks[b].priority || (tasks[a].priority == tasks[b].priority && a <= b)
  }

  predicate Soonest(tasks: Tasks, rest: set<Id>, i: Id)
    requires rest <= tasks.Keys
  {
    i in rest && forall j :: j in rest ==> Sooner(tasks, i, j)
  }

  lemma {:induction false} SoonestExists(tasks: Tasks, rest: set<Id>)
    requires rest <= tasks.Keys && rest != {}
    ensures exists i :: i in rest && Soonest(tasks, rest, i)
    decreases |rest|
  {
    var a :| a in rest;
    if rest == {a} {
      assert Soonest(tasks, rest, a);
    } else {
      var fewer := rest - {a};
      assert rest == fewer + {a};
      SoonestExists(tasks, fewer);
      var i :| i in fewer && Soonest(tasks, fewer, i);
      assert Soonest(tasks, rest, if Sooner(tasks, i, a) then i else a);
    }
  }

  /** By ascending priority, and by ascending id within one priority; so no id repeats. */
  ghost predicate InOrder(tasks: Tasks, ids: seq<Id>) {
    && (forall x :: x in ids ==> x in tasks)
    && forall i, j :: 0 <= i < j < |ids| ==>
         || tasks[ids[i]].priority < tasks[ids[j]].priority
         || (tasks[ids[i]].priority == tasks[ids[j]].priority && ids[i] < ids[j])
  }

  datatype Selection = Selection(ready: seq<Id>, blocked: seq<Id>, external: seq<Id>, done: seq<Id>, closed: bool)

  /** All that `select` reports of the tasks in `scope`. */
  ghost predicate Sorts(tasks: Tasks, capabilities: set<Id>, completed: set<Id>, scope: set<Id>, s: Selection) {
    && InOrder(tasks, s.ready) && InOrder(tasks, s.blocked) && InOrder(tasks, s.external) && InOrder(tasks, s.done)
    && (forall i :: i in s.ready <==> i in scope && Ready(tasks, capabilities, completed, i))
    && (forall i :: i in s.blocked <==> i in scope && i in Unfinished(tasks, completed) && !Ready(tasks, capabilities, completed, i))
    && (forall i :: i in s.external <==> i in scope && i in tasks && !tasks[i].local && i !in completed)
    && (forall i :: i in s.done <==> i in scope && i in tasks && i in completed)
  }

  ghost predicate AllSooner(tasks: Tasks, ids: seq<Id>, rest: set<Id>) {
    forall i, j :: i in ids && j in rest ==> i in tasks && j in tasks && Sooner(tasks, i, j)
  }

  lemma {:induction false} AppendInOrder(tasks: Tasks, ids: seq<Id>, i: Id, rest: set<Id>)
    requires InOrder(tasks, ids) && rest <= tasks.Keys && Soonest(tasks, rest, i) && AllSooner(tasks, ids, rest) && i !in ids
    ensures InOrder(tasks, ids + [i]) && AllSooner(tasks, ids + [i], rest - {i}) && AllSooner(tasks, ids, rest - {i})
  {
    var more := ids + [i];
    forall k | 0 <= k < |ids|
      ensures more[k] == ids[k] && Sooner(tasks, ids[k], i) && ids[k] != i
    {
      assert ids[k] in ids && i in rest;
    }
    assert more[|ids|] == i;
    forall x | x in more
      ensures x in tasks
    {
    }
  }

  lemma {:induction false} SoonerOfFewer(tasks: Tasks, ids: seq<Id>, i: Id, rest: set<Id>)
    requires AllSooner(tasks, ids, rest)
    ensures AllSooner(tasks, ids, rest - {i})
  {
  }

  lemma {:induction false} NothingSorted(tasks: Tasks, rest: set<Id>)
    ensures InOrder(tasks, []) && AllSooner(tasks, [], rest)
  {
  }

  /** `select`: every task lands in one list, each list by priority and id; closed means no LOCAL task is unfinished. */
  method Select(tasks: Tasks, capabilities: set<Id>, completed: set<Id>) returns (s: Selection)
    requires Sound(tasks)
    ensures Sorts(tasks, capabilities, completed, tasks.Keys, s)
    ensures s.closed <==> Unfinished(tasks, completed) == {}
  {
    hide Sound;
    hide InOrder;
    hide AllSooner;
    hide Soonest;
    var ready: seq<Id>, blocked: seq<Id>, external: seq<Id>, done: seq<Id> := [], [], [], [];
    NothingSorted(tasks, tasks.Keys);
    var rest := tasks.Keys;
    while rest != {}
      invariant rest <= tasks.Keys
      invariant Sorts(tasks, capabilities, completed, tasks.Keys - rest, Selection(ready, blocked, external, done, false))
      invariant AllSooner(tasks, ready, rest) && AllSooner(tasks, blocked, rest)
      invariant AllSooner(tasks, external, rest) && AllSooner(tasks, done, rest)
    {
      SoonestExists(tasks, rest);
      var i :| i in rest && Soonest(tasks, rest, i);
      SoonerOfFewer(tasks, ready, i, rest);
      SoonerOfFewer(tasks, blocked, i, rest);
      SoonerOfFewer(tasks, external, i, rest);
      SoonerOfFewer(tasks, done, i, rest);
      if i in completed {
        AppendInOrder(tasks, done, i, rest);
        done := done + [i];
      } else if !tasks[i].local {
        AppendInOrder(tasks, external, i, rest);
        external := external + [i];
      } else if tasks[i].afterClosure || (exists d :: d in tasks[i].deps && d !in completed) || !(tasks[i].capabilities <= capabilities) {
        AppendInOrder(tasks, blocked, i, rest);
        blocked := blocked + [i];
      } else {
        AppendInOrder(tasks, ready, i, rest);
        ready := ready + [i];
      }
      rest := rest - {i};
    }
    s := Selection(ready, blocked, external, done, ready == [] && blocked == []);
    assert tasks.Keys - rest == tasks.Keys;
    ClosedMeansFinished(tasks, capabilities, completed, s);
  }

  lemma {:induction false} ClosedMeansFinished(tasks: Tasks, capabilities: set<Id>, completed: set<Id>, s: Selection)
    requires Sorts(tasks, capabilities, completed, tasks.Keys, s)
    ensures s.ready == [] && s.blocked == [] <==> Unfinished(tasks, completed) == {}
  {
    if s.ready != [] {
      assert s.ready[0] in s.ready;
      assert s.ready[0] in Unfinished(tasks, completed);
    }
    if s.blocked != [] {
      assert s.blocked[0] in s.blocked;
      assert s.blocked[0] in Unfinished(tasks, completed);
    }
    if i :| i in Unfinished(tasks, completed) {
      assert i in s.ready || i in s.blocked;
    }
  }
}
