/** Single-change admission: `product/wp04/contracts.py`, `core_request`. */
module Contracts {
  import opened Ordering
  import opened ClosureWalk

  const MAX_CHANGE := 524288
  const MAX_CLOSURE := 128
  const MAX_CLOSURE_BYTES := 4 * 1024 * 1024

  datatype Code =
    | ResourceLimit
    | DependencyScopeMismatch
    | DependencyEquivocation
    | DependenciesMissing
    | DependencyCycle
    | ExtraneousDependency
    | ChangeAlreadyPresent
    | PreviousMismatch
    | ActorEquivocation
    | InputEquivocation
    | NoNewChanges
    | StoreVerificationFailed
    | OwnerStateChanged
    | InputVerificationFailed

  /** Header fields 0-4, 9, 14 and 15: those a closure must share with its candidate. */
  datatype Context = Context(app: Id, space: Id, epoch: Id, document: Id, kind: nat, schema: Id, codec: nat, keyTag: Id)

  datatype Change = Change(context: Context, actor: Id, sequence: nat, previous: Option<Id>,
                           dependencies: set<Id>, size: nat, inner: Id)

  datatype Dependency = Dependency(envelope: Id, change: Change)

  /** Candidate and ordered closure; the descriptors list these changes' fields. */
  datatype Request = Request(candidate: Change, closure: seq<Change>)

  type Nodes = map<Id, Dependency>

  // ---------------------------------------------------------------- the request as a function

  ghost function ItemFault(c: Change, closure: seq<Dependency>, i: nat): Option<Code>
    requires i < |closure|
  {
    if closure[i].change.context != c.context then Some(DependencyScopeMismatch)
    else if exists j :: 0 <= j < i && SameName(closure[j], closure[i]) then Some(DependencyEquivocation)
    else None
  }

  predicate SameName(a: Dependency, b: Dependency) {
    a.change.inner == b.change.inner || a.envelope == b.envelope
  }

  ghost function FirstFault(c: Change, closure: seq<Dependency>, i: nat): Option<Code>
    requires i <= |closure|
    decreases |closure| - i
  {
    if i == |closure| then None
    else if ItemFault(c, closure, i).Some? then ItemFault(c, closure, i)
    else FirstFault(c, closure, i + 1)
  }

  function NodesOf(closure: seq<Dependency>): Nodes {
    if closure == [] then map[] else
      var d := closure[|closure| - 1];
      NodesOf(closure[..|closure| - 1])[d.change.inner := d]
  }

  function Total(closure: seq<Dependency>): nat {
    if closure == [] then 0 else Total(closure[..|closure| - 1]) + closure[|closure| - 1].change.size
  }

  function Parents(nodes: Nodes): Graph<Id> {
    map k | k in nodes :: Sorted(nodes[k].change.dependencies)
  }

  /** The graph of the closure together with its candidate. */
  function WithCandidate(c: Change, nodes: Nodes): Graph<Id> {
    Parents(nodes)[c.inner := Sorted(c.dependencies)]
  }

  function Listed(nodes: Nodes, order: seq<Id>): seq<Change>
    requires forall x :: x in order ==> x in nodes
  {
    seq(|order|, i requires 0 <= i < |order| => nodes[order[i]].change)
  }

  /** The author's previous change is in the closure and among this change's ancestors. */
  ghost predicate PredecessorPresent(c: Change, nodes: Nodes, current: Change) {
    current.sequence == 1 ||
    exists k :: k in nodes && current.previous == Some(nodes[k].envelope) && Precedes(c, nodes, current, nodes[k].change)
  }

  ghost predicate Precedes(c: Change, nodes: Nodes, current: Change, p: Change) {
    && p.actor == current.actor && p.sequence == current.sequence - 1
    && Reaches(WithCandidate(c, nodes), current.inner, p.inner)
  }

  ghost predicate OneChangePerSlot(changes: seq<Change>) {
    forall i, j :: 0 <= i < j < |changes| && SameSlot(changes[i], changes[j]) ==> changes[i].inner == changes[j].inner
  }

  ghost function CoreRequest(c: Change, closure: seq<Dependency>): Result<Request, Code> {
    if |closure| > MAX_CLOSURE then Err(ResourceLimit)
    else if FirstFault(c, closure, 0).Some? then Err(FirstFault(c, closure, 0).value)
    else if c.size + Total(closure) > MAX_CLOSURE_BYTES then Err(ResourceLimit)
    else
      var nodes := NodesOf(closure);
      match Walk(Parents(nodes), |nodes|, [], [], Sorted(c.dependencies))
      case Missing(_) => Err(DependenciesMissing)
      case Cycle(_) => Err(DependencyCycle)
      case OverLimit => Err(ResourceLimit)
      case Done(order) =>
        if Elems(order) != nodes.Keys then Err(ExtraneousDependency)
        else if c.inner in nodes then Err(ChangeAlreadyPresent)
        else if exists x :: x in Listed(nodes, order) + [c] && !PredecessorPresent(c, nodes, x) then Err(PreviousMismatch)
        else if !OneChangePerSlot(Listed(nodes, order) + [c]) then Err(ActorEquivocation)
        else Ok(Request(c, Listed(nodes, order)))
  }

  // ---------------------------------------------------------------- what acceptance means

  ghost predicate DistinctNames(closure: seq<Dependency>) {
    forall i, j :: 0 <= i < j < |closure| ==> !SameName(closure[i], closure[j])
  }

  /** The closure is the set of all proper ancestors of the candidate, and nothing is its own ancestor. */
  ghost predicate ExactAcyclicClosure(c: Change, nodes: Nodes) {
    var g := WithCandidate(c, nodes);
    && (forall x :: x in nodes <==> Reaches(g, c.inner, x))
    && (forall x :: !Reaches(g, x, x))
  }

  ghost predicate Acceptable(c: Change, closure: seq<Dependency>) {
    var nodes := NodesOf(closure);
    && |closure| <= MAX_CLOSURE && c.size + Total(closure) <= MAX_CLOSURE_BYTES
    && DistinctNames(closure)
    && (forall d :: d in closure ==> d.change.context == c.context)
    && ExactAcyclicClosure(c, nodes)
    && (forall d :: d in closure ==> PredecessorPresent(c, nodes, d.change)) && PredecessorPresent(c, nodes, c)
    && DistinctSlots(c, closure)
  }

  predicate SameSlot(a: Change, b: Change) {
    a.actor == b.actor && a.sequence == b.sequence
  }

  lemma {:induction false} FirstFaultNone(c: Change, closure: seq<Dependency>, i: nat)
    requires i <= |closure|
    ensures FirstFault(c, closure, i).None? <==> forall j :: i <= j < |closure| ==> ItemFault(c, closure, j).None?
    decreases |closure| - i
  {
    if i < |closure| {
      FirstFaultNone(c, closure, i + 1);
    }
  }

  lemma {:induction false} ScanAccepts(c: Change, closure: seq<Dependency>)
    ensures FirstFault(c, closure, 0).None? <==>
            DistinctNames(closure) && forall d :: d in closure ==> d.change.context == c.context
  {
    FirstFaultNone(c, closure, 0);
    if FirstFault(c, closure, 0).None? {
      forall i, j | 0 <= i < j < |closure|
        ensures !SameName(closure[i], closure[j])
      {
        assert ItemFault(c, closure, j).None?;
      }
      forall d | d in closure
        ensures d.change.context == c.context
      {
        var j :| 0 <= j < |closure| && closure[j] == d;
        assert ItemFault(c, closure, j).None?;
      }
    }
  }

  lemma {:induction false} LastIsNew(closure: seq<Dependency>)
    requires DistinctNames(closure) && closure != []
    ensures var n := |closure| - 1;
            closure == closure[..n] + [closure[n]] && forall d :: d in closure[..n] ==> d.change.inner != closure[n].change.inner
  {
  }

  lemma {:induction false} NodesOfContents(closure: seq<Dependency>)
    requires DistinctNames(closure)
    ensures |NodesOf(closure)| == |closure|
    ensures forall d :: d in closure ==> d.change.inner in NodesOf(closure) && NodesOf(closure)[d.change.inner] == d
    ensures forall k :: k in NodesOf(closure) ==> NodesOf(closure)[k] in closure && NodesOf(closure)[k].change.inner == k
  {
    if closure != [] {
      var n := |closure| - 1;
      var init, last := closure[..n], closure[n];
      NodesOfContents(init);
      LastIsNew(closure);
      hide DistinctNames;
      assert forall d :: d in closure <==> d in init || d == last;
    }
  }

  lemma {:induction false} WalkThenCandidate(c: Change, nodes: Nodes, order: seq<Id>)
    requires Walk(Parents(nodes), |nodes|, [], [], Sorted(c.dependencies)) == Done(order)
    requires c.inner !in nodes
    ensures Distinct(order) && Topological(Parents(nodes), order) && Topological(WithCandidate(c, nodes), order + [c.inner])
  {
    hide Walk;
    hide Sorted;
    WalkTopological(Parents(nodes), |nodes|, [], [], Sorted(c.dependencies));
    TopologicalAppend(Parents(nodes), order, c.inner, Sorted(c.dependencies));
  }

  lemma {:induction false} WalkReachedFromCandidate(c: Change, nodes: Nodes, order: seq<Id>)
    requires Walk(Parents(nodes), |nodes|, [], [], Sorted(c.dependencies)) == Done(order)
    requires c.inner !in nodes && Topological(Parents(nodes), order)
    ensures forall x :: x in order ==> Reaches(WithCandidate(c, nodes), c.inner, x)
  {
    hide Walk;
    hide Sorted;
    hide Reaches;
    var g, full := Parents(nodes), WithCandidate(c, nodes);
    var reached := set x | x in order && Reaches(full, c.inner, x);
    forall x | x in Sorted(c.dependencies)
      ensures x in reached
    {
      ParentReached(full, c.inner, x);
    }
    forall x, y | x in reached && x in g && y in g[x]
      ensures y in reached
    {
      var i :| 0 <= i < |order| && order[i] == x;
      assert y in order[..i];
      ParentReached(full, x, y);
      ReachesTransitive(full, c.inner, x, y);
    }
    WalkWithin(g, |nodes|, [], [], Sorted(c.dependencies), reached);
  }

  /** A finished walk from the candidate's dependencies lists exactly its ancestors. */
  lemma {:induction false} WalkListsAncestors(c: Change, nodes: Nodes, order: seq<Id>)
    requires Walk(Parents(nodes), |nodes|, [], [], Sorted(c.dependencies)) == Done(order)
    requires c.inner !in nodes
    ensures Distinct(order)
    ensures Topological(Parents(nodes), order) && Topological(WithCandidate(c, nodes), order + [c.inner])
    ensures forall x :: x in order <==> Reaches(WithCandidate(c, nodes), c.inner, x)
  {
    WalkThenCandidate(c, nodes, order);
    WalkReachedFromCandidate(c, nodes, order);
    hide Walk;
    hide Sorted;
    var full, all := WithCandidate(c, nodes), order + [c.inner];
    forall x | Reaches(full, c.inner, x)
      ensures x in order
    {
      var p :| IsPath(full, p) && |p| >= 2 && p[0] == c.inner && p[|p| - 1] == x;
      PathDescends(full, all, |order|, p);
      assert all[..|order|] == order;
    }
  }

  lemma {:induction false} ListedContents(nodes: Nodes, order: seq<Id>, closure: seq<Dependency>)
    requires DistinctNames(closure) && nodes == NodesOf(closure)
    requires Elems(order) == nodes.Keys && Distinct(order)
    ensures |order| == |closure|
    ensures forall d :: d in closure ==> d.change in Listed(nodes, order)
    ensures forall x :: x in Listed(nodes, order) ==> x.inner in nodes && nodes[x.inner].change == x && nodes[x.inner] in closure
  {
    NodesOfContents(closure);
    DistinctSize(order);
    var listed := Listed(nodes, order);
    forall d | d in closure
      ensures d.change in listed
    {
      assert d.change.inner in Elems(order);
      var i :| 0 <= i < |order| && order[i] == d.change.inner;
      assert listed[i] == d.change;
    }
    forall x | x in listed
      ensures x.inner in nodes && nodes[x.inner].change == x && nodes[x.inner] in closure
    {
      var i :| 0 <= i < |order| && listed[i] == x;
      assert order[i] in Elems(order);
    }
  }

  /** Everything that acceptance establishes about the ordered closure. */
  lemma {:induction false} AcceptedOrder(c: Change, closure: seq<Dependency>) returns (order: seq<Id>)
    requires CoreRequest(c, closure).Ok?
    ensures DistinctNames(closure) && Distinct(order)
    ensures var nodes := NodesOf(closure);
            && Walk(Parents(nodes), |nodes|, [], [], Sorted(c.dependencies)) == Done(order)
            && Elems(order) == nodes.Keys && c.inner !in nodes && |order| == |closure|
            && Topological(WithCandidate(c, nodes), order + [c.inner])
            && Topological(Parents(nodes), order)
            && CoreRequest(c, closure).value == Request(c, Listed(nodes, order))
            && (forall x :: x in nodes <==> Reaches(WithCandidate(c, nodes), c.inner, x))
  {
    hide Walk;
    hide Sorted;
    hide Reaches;
    hide NodesOf;
    hide Total;
    hide Topological;
    hide WithCandidate;
    ScanAccepts(c, closure);
    var nodes := NodesOf(closure);
    order := Walk(Parents(nodes), |nodes|, [], [], Sorted(c.dependencies)).order;
    WalkListsAncestors(c, nodes, order);
    assert forall x :: x in nodes <==> x in Elems(order);
    ListedContents(nodes, order, closure);
  }

  lemma {:induction false} AcceptedIsAcyclic(c: Change, closure: seq<Dependency>)
    requires CoreRequest(c, closure).Ok?
    ensures ExactAcyclicClosure(c, NodesOf(closure))
  {
    hide Walk;
    hide Sorted;
    hide Reaches;
    hide NodesOf;
    hide CoreRequest;
    hide Topological;
    var order := AcceptedOrder(c, closure);
    var nodes := NodesOf(closure);
    var full := WithCandidate(c, nodes);
    forall x
      ensures !Reaches(full, x, x)
    {
      if x in order + [c.inner] {
        TopologicalAcyclic(full, order + [c.inner], x);
      } else {
        assert x !in Elems(order);
        assert x !in full;
        if Reaches(full, x, x) {
          ReachesFromKnown(full, x, x);
        }
      }
    }
  }

  lemma {:induction false} AcceptedAuthors(c: Change, closure: seq<Dependency>, nodes: Nodes, order: seq<Id>)
    requires DistinctNames(closure) && nodes == NodesOf(closure) && Elems(order) == nodes.Keys && Distinct(order)
    requires c.inner !in nodes
    requires forall x :: x in Listed(nodes, order) + [c] ==> PredecessorPresent(c, nodes, x)
    requires OneChangePerSlot(Listed(nodes, order) + [c])
    ensures forall d :: d in closure ==> PredecessorPresent(c, nodes, d.change) && !SameSlot(d.change, c)
    ensures PredecessorPresent(c, nodes, c)
    ensures forall d, e :: d in closure && e in closure && SameSlot(d.change, e.change) ==> d == e
  {
    ListedContents(nodes, order, closure);
    NodesOfContents(closure);
    hide NodesOf;
    hide PredecessorPresent;
    hide Listed;
    var listed := Listed(nodes, order);
    var all := listed + [c];
    assert all[|listed|] == c;
    forall d | d in closure
      ensures PredecessorPresent(c, nodes, d.change) && !SameSlot(d.change, c)
    {
      var i :| 0 <= i < |listed| && listed[i] == d.change;
      assert all[i] == d.change;
    }
    forall d, e | d in closure && e in closure && SameSlot(d.change, e.change)
      ensures d == e
    {
      SlotInListing(listed, c, d.change, e.change);
    }
  }

  lemma {:induction false} SlotInListing(listed: seq<Change>, c: Change, a: Change, b: Change)
    requires OneChangePerSlot(listed + [c]) && a in listed && b in listed && SameSlot(a, b)
    ensures a.inner == b.inner
  {
    var all := listed + [c];
    var i :| 0 <= i < |listed| && listed[i] == a;
    var j :| 0 <= j < |listed| && listed[j] == b;
    assert all[i] == a && all[j] == b;
  }

  lemma {:induction false} AcceptedIsAcceptable(c: Change, closure: seq<Dependency>)
    requires CoreRequest(c, closure).Ok?
    ensures Acceptable(c, closure)
  {
    hide Walk;
    hide Sorted;
    hide NodesOf;
    hide Total;
    hide Topological;
    hide WithCandidate;
    hide ExactAcyclicClosure;
    hide PredecessorPresent;
    hide OneChangePerSlot;
    var order := AcceptedOrder(c, closure);
    AcceptedIsAcyclic(c, closure);
    ScanAccepts(c, closure);
    AcceptedAuthors(c, closure, NodesOf(closure), order);
  }

  /** Paths of the closure graph are paths of the graph with the candidate. */
  lemma {:induction false} PathFromCandidate(c: Change, nodes: Nodes, p: seq<Id>)
    requires c.inner !in nodes && IsPath(Parents(nodes), p) && p[0] in c.dependencies
    ensures IsPath(WithCandidate(c, nodes), [c.inner] + p)
  {
  }

  /** Over an exact acyclic closure the walk can fail in no way. */
  lemma {:induction false} ExactClosureWalks(c: Change, nodes: Nodes)
    requires ExactAcyclicClosure(c, nodes)
    ensures c.inner !in nodes
    ensures Walk(Parents(nodes), |nodes|, [], [], Sorted(c.dependencies)).Done?
  {
    hide Walk;
    hide Sorted;
    hide Reaches;
    var g, full := Parents(nodes), WithCandidate(c, nodes);
    assert !Reaches(full, c.inner, c.inner);
    var r := Walk(g, |nodes|, [], [], Sorted(c.dependencies));
    assert |g| == |nodes| by { assert g.Keys == nodes.Keys; }
    WalkHasRoom(g, |nodes|, [], [], Sorted(c.dependencies));
    if r.Missing? || r.Cycle? {
      var p := WalkBlames(g, |nodes|, [], [], Sorted(c.dependencies));
      BlamedIsReached(c, nodes, p, r);
      assert false;
    }
  }

  /** The path of a failed walk leads from the candidate to the key that is missing or closes a cycle. */
  lemma {:induction false} BlamedIsReached(c: Change, nodes: Nodes, p: seq<Id>, r: Outcome<Id>)
    requires IsPath(Parents(nodes), p) && p[0] in Sorted(c.dependencies) && c.inner !in nodes
    requires (r.Missing? || r.Cycle?) && p[|p| - 1] == r.at && (r.Cycle? ==> r.at in p[..|p| - 1])
    ensures Reaches(WithCandidate(c, nodes), c.inner, r.at)
    ensures r.Cycle? ==> Reaches(WithCandidate(c, nodes), r.at, r.at)
  {
    hide Walk;
    hide Sorted;
    hide Reaches;
    var full := WithCandidate(c, nodes);
    PathFromCandidate(c, nodes, p);
    var q := [c.inner] + p;
    assert q[|q| - 1] == p[|p| - 1];
    PathReaches(full, q, 0, |q| - 1);
    if r.Cycle? {
      var i :| 0 <= i < |p| - 1 && p[i] == r.at;
      assert q[i + 1] == p[i];
      PathReaches(full, q, i + 1, |q| - 1);
    }
  }

  ghost predicate DistinctSlots(c: Change, closure: seq<Dependency>) {
    && (forall d, e :: d in closure && e in closure && SameSlot(d.change, e.change) ==> d == e)
    && (forall d :: d in closure ==> !SameSlot(d.change, c))
  }

  lemma {:induction false} SlotsHold(c: Change, closure: seq<Dependency>, nodes: Nodes, order: seq<Id>)
    requires DistinctNames(closure) && nodes == NodesOf(closure) && Elems(order) == nodes.Keys && Distinct(order)
    requires DistinctSlots(c, closure)
    ensures OneChangePerSlot(Listed(nodes, order) + [c])
  {
    ListedContents(nodes, order, closure);
    hide NodesOf;
    var listed := Listed(nodes, order);
    var all := listed + [c];
    forall i, j | 0 <= i < j < |all| && SameSlot(all[i], all[j])
      ensures all[i].inner == all[j].inner
    {
      assert all[i] == listed[i] && listed[i] in listed;
      if j < |listed| {
        assert all[j] == listed[j] && listed[j] in listed;
      }
    }
  }

  /** Over an exact acyclic closure with distinct names and slots only two objections remain. */
  lemma {:induction false} ExactClosureVerdict(c: Change, closure: seq<Dependency>)
    requires |closure| <= MAX_CLOSURE && c.size + Total(closure) <= MAX_CLOSURE_BYTES
    requires DistinctNames(closure) && ExactAcyclicClosure(c, NodesOf(closure)) && DistinctSlots(c, closure)
    ensures CoreRequest(c, closure).Ok? || CoreRequest(c, closure).error in {DependencyScopeMismatch, PreviousMismatch}
  {
    hide Walk;
    hide Sorted;
    hide Reaches;
    hide NodesOf;
    hide Total;
    hide Topological;
    hide WithCandidate;
    hide PredecessorPresent;
    hide OneChangePerSlot;
    hide FirstFault;
    var nodes := NodesOf(closure);
    FirstFaultIsContext(c, closure, 0);
    ExactClosureWalks(c, nodes);
    var order := Walk(Parents(nodes), |nodes|, [], [], Sorted(c.dependencies)).order;
    WalkListsAncestors(c, nodes, order);
    assert Elems(order) == nodes.Keys;
    SlotsHold(c, closure, nodes, order);
  }

  lemma {:induction false} FirstFaultIsContext(c: Change, closure: seq<Dependency>, i: nat)
    requires i <= |closure| && DistinctNames(closure)
    ensures FirstFault(c, closure, i) in {None, Some(DependencyScopeMismatch)}
    decreases |closure| - i
  {
    if i < |closure| {
      FirstFaultIsContext(c, closure, i + 1);
    }
  }

  lemma {:induction false} AcceptableIsAccepted(c: Change, closure: seq<Dependency>)
    requires Acceptable(c, closure)
    ensures CoreRequest(c, closure).Ok?
  {
    hide Walk;
    hide Sorted;
    hide Reaches;
    hide NodesOf;
    hide Total;
    hide Topological;
    hide WithCandidate;
    hide PredecessorPresent;
    hide OneChangePerSlot;
    hide FirstFault;
    var nodes := NodesOf(closure);
    ScanAccepts(c, closure);
    ExactClosureWalks(c, nodes);
    var order := Walk(Parents(nodes), |nodes|, [], [], Sorted(c.dependencies)).order;
    WalkListsAncestors(c, nodes, order);
    assert Elems(order) == nodes.Keys;
    ListedContents(nodes, order, closure);
    SlotsHold(c, closure, nodes, order);
    forall x | x in Listed(nodes, order) + [c]
      ensures PredecessorPresent(c, nodes, x)
    {
      if x in Listed(nodes, order) {
        assert nodes[x.inner] in closure;
      }
    }
  }

  /**
   Exact acceptance: `core_request` accepts a closure if and only if its sizes fit, its
   names are distinct, its contexts match, it is exactly the acyclic set of the candidate's
   ancestors, every later change has its author's previous change among its ancestors, and
   no author slot is used twice.
   */
  lemma {:induction false} CoreAcceptsExactly(c: Change, closure: seq<Dependency>)
    ensures CoreRequest(c, closure).Ok? <==> Acceptable(c, closure)
  {
    if CoreRequest(c, closure).Ok? {
      AcceptedIsAcceptable(c, closure);
    }
    if Acceptable(c, closure) {
      AcceptableIsAccepted(c, closure);
    }
  }

  ghost predicate HasInner(changes: seq<Change>, k: Id) {
    exists j :: 0 <= j < |changes| && changes[j].inner == k
  }

  lemma {:induction false} ListedIsCausal(nodes: Nodes, order: seq<Id>, i: nat, k: Id)
    requires Topological(Parents(nodes), order) && (forall x :: x in order ==> x in nodes)
    requires (forall x :: x in nodes ==> nodes[x].change.inner == x) && i < |order|
    requires k in Listed(nodes, order)[i].dependencies
    ensures HasInner(Listed(nodes, order)[..i], k)
  {
    hide Sorted;
    var listed := Listed(nodes, order);
    assert k in Parents(nodes)[order[i]];
    var j :| 0 <= j < i && order[j] == k;
    assert listed[..i][j].inner == k;
  }

  /** The accepted request lists every dependency once, parents first. */
  lemma {:induction false} CoreOrderIsCausal(c: Change, closure: seq<Dependency>)
    requires CoreRequest(c, closure).Ok?
    ensures var listed := CoreRequest(c, closure).value.closure;
            && CoreRequest(c, closure).value.candidate == c
            && |listed| == |closure| && (forall d :: d in closure ==> d.change in listed)
            && (forall i, j :: 0 <= i < j < |listed| ==> listed[i].inner != listed[j].inner)
            && (forall i, k :: 0 <= i < |listed| && k in listed[i].dependencies ==> HasInner(listed[..i], k))
            && (forall k :: k in c.dependencies ==> HasInner(listed, k))
  {
    hide Walk;
    hide Sorted;
    hide NodesOf;
    hide CoreRequest;
    hide Topological;
    hide Reaches;
    hide WithCandidate;
    var order := AcceptedOrder(c, closure);
    var nodes := NodesOf(closure);
    NodesOfContents(closure);
    ListedContents(nodes, order, closure);
    assert forall x :: x in order ==> x in Elems(order);
    var listed := Listed(nodes, order);
    assert forall i :: 0 <= i < |listed| ==> listed[i].inner == order[i];
    forall i, k | 0 <= i < |listed| && k in listed[i].dependencies
      ensures HasInner(listed[..i], k)
    {
      ListedIsCausal(nodes, order, i, k);
    }
    forall k | k in c.dependencies
      ensures HasInner(listed, k)
    {
      assert k in Sorted(c.dependencies);
      var j :| 0 <= j < |order| && order[j] == k;
      assert listed[j].inner == k;
    }
  }

  /** A cycle verdict witnesses a change that is its own ancestor, below the candidate. */
  lemma {:induction false} CoreCycleIsReal(c: Change, closure: seq<Dependency>) returns (x: Id)
    requires CoreRequest(c, closure) == Err(DependencyCycle)
    ensures Reaches(Parents(NodesOf(closure)), x, x)
  {
    hide Walk;
    hide Sorted;
    hide Reaches;
    hide NodesOf;
    var nodes := NodesOf(closure);
    var g := Parents(nodes);
    FirstFaultCodes(c, closure, 0);
    var p := WalkBlames(g, |nodes|, [], [], Sorted(c.dependencies));
    x := p[|p| - 1];
    var i :| 0 <= i < |p| - 1 && p[i] == x;
    PathReaches(g, p, i, |p| - 1);
  }

  /** A missing-dependency verdict names a dependency below the candidate that the closure lacks. */
  lemma {:induction false} CoreMissingIsReal(c: Change, closure: seq<Dependency>) returns (p: seq<Id>)
    requires CoreRequest(c, closure) == Err(DependenciesMissing)
    ensures IsPath(Parents(NodesOf(closure)), p) && p[0] in c.dependencies && p[|p| - 1] !in NodesOf(closure)
  {
    hide Walk;
    hide Sorted;
    hide NodesOf;
    FirstFaultCodes(c, closure, 0);
    var nodes := NodesOf(closure);
    p := WalkBlames(Parents(nodes), |nodes|, [], [], Sorted(c.dependencies));
  }

  lemma {:induction false} FirstFaultCodes(c: Change, closure: seq<Dependency>, i: nat)
    requires i <= |closure|
    ensures FirstFault(c, closure, i) in {None, Some(DependencyScopeMismatch), Some(DependencyEquivocation)}
    decreases |closure| - i
  {
    if i < |closure| {
      FirstFaultCodes(c, closure, i + 1);
    }
  }

  // ---------------------------------------------------------------- what each refusal means

  /** No chain of dependencies leads from the candidate to `x`. */
  ghost predicate Unrelated(c: Change, nodes: Nodes, x: Id) {
    forall p :: IsPath(Parents(nodes), p) && p[0] in c.dependencies ==> p[|p| - 1] != x
  }

  /** What a refusal says of the candidate and the closure it was handed. */
  ghost predicate RefusalIsReal(c: Change, closure: seq<Dependency>, code: Code) {
    var nodes := NodesOf(closure);
    match code
    case ResourceLimit => |closure| > MAX_CLOSURE || c.size + Total(closure) > MAX_CLOSURE_BYTES
    case DependencyScopeMismatch => exists d :: d in closure && d.change.context != c.context
    case DependencyEquivocation => !DistinctNames(closure)
    case DependenciesMissing => exists p :: IsPath(Parents(nodes), p) && p[0] in c.dependencies && p[|p| - 1] !in nodes
    case DependencyCycle => exists x :: Reaches(Parents(nodes), x, x)
    case ExtraneousDependency => exists x :: x in nodes && Unrelated(c, nodes, x)
    case ChangeAlreadyPresent => c.inner in nodes
    case PreviousMismatch => exists x :: InRequest(c, closure, x) && !PredecessorPresent(c, nodes, x)
    case ActorEquivocation => !DistinctSlots(c, closure)
    case _ => false
  }

  lemma {:induction false} PathStays(g: Graph<Id>, p: seq<Id>, s: set<Id>)
    requires IsPath(g, p) && Closed(g, s) && p[0] in s
    ensures p[|p| - 1] in s
  {
    for i := 0 to |p| - 1
      invariant p[i] in s
    {
      assert p[i] in g && p[i + 1] in g[p[i]];
    }
  }

  lemma {:induction false} UnlistedIsUnrelated(c: Change, nodes: Nodes, order: seq<Id>, x: Id)
    requires Walk(Parents(nodes), |nodes|, [], [], Sorted(c.dependencies)) == Done(order) && x !in order
    ensures Unrelated(c, nodes, x)
  {
    var g := Parents(nodes);
    WalkTopological(g, |nodes|, [], [], Sorted(c.dependencies));
    hide Walk;
    assert Closed(g, Elems(order)) by {
      forall y, k | y in Elems(order) && y in g && k in g[y]
        ensures k in Elems(order)
      {
        var i :| 0 <= i < |order| && order[i] == y;
        assert k in order[..i];
      }
    }
    forall p | IsPath(g, p) && p[0] in c.dependencies
      ensures p[|p| - 1] != x
    {
      assert p[0] in Sorted(c.dependencies);
      PathStays(g, p, Elems(order));
    }
  }

  lemma {:induction false} FirstFaultIsReal(c: Change, closure: seq<Dependency>, i: nat)
    requires i <= |closure| && FirstFault(c, closure, i).Some?
    ensures RefusalIsReal(c, closure, FirstFault(c, closure, i).value)
    ensures FirstFault(c, closure, i).value in {DependencyScopeMismatch, DependencyEquivocation}
    decreases |closure| - i
  {
    hide NodesOf;
    hide Total;
    if ItemFault(c, closure, i).None? {
      FirstFaultIsReal(c, closure, i + 1);
    } else if closure[i].change.context != c.context {
      assert closure[i] in closure;
    }
  }

  /** Over names that differ, changes that share a slot make the slots of the closure and candidate clash. */
  lemma {:induction false} SharedSlotIsReal(c: Change, closure: seq<Dependency>, nodes: Nodes, order: seq<Id>)
    requires DistinctNames(closure) && nodes == NodesOf(closure) && Elems(order) == nodes.Keys && Distinct(order)
    requires !OneChangePerSlot(Listed(nodes, order) + [c])
    ensures !DistinctSlots(c, closure)
  {
    if DistinctSlots(c, closure) {
      SlotsHold(c, closure, nodes, order);
    }
  }

  /** Every refusal of `core_request` names what is really wrong with its input. */
  lemma {:induction false} CoreRefusalsAreReal(c: Change, closure: seq<Dependency>)
    requires CoreRequest(c, closure).Err?
    ensures RefusalIsReal(c, closure, CoreRequest(c, closure).error)
  {
    hide RefusalIsReal;
    hide Walk;
    hide Sorted;
    hide NodesOf;
    hide Total;
    hide FirstFault;
    hide PredecessorPresent;
    hide OneChangePerSlot;
    if |closure| > MAX_CLOSURE {
      BudgetIsReal(c, closure);
    } else if FirstFault(c, closure, 0).Some? {
      FirstFaultIsReal(c, closure, 0);
    } else if c.size + Total(closure) > MAX_CLOSURE_BYTES {
      BudgetIsReal(c, closure);
    } else {
      ScanAccepts(c, closure);
      WalkRefusalIsReal(c, closure);
    }
  }

  lemma {:induction false} BudgetIsReal(c: Change, closure: seq<Dependency>)
    requires |closure| > MAX_CLOSURE || c.size + Total(closure) > MAX_CLOSURE_BYTES
    ensures RefusalIsReal(c, closure, ResourceLimit)
  {
  }

  lemma {:induction false} MissingIsRefusal(c: Change, closure: seq<Dependency>, p: seq<Id>)
    requires IsPath(Parents(NodesOf(closure)), p) && p[0] in c.dependencies && p[|p| - 1] !in NodesOf(closure)
    ensures RefusalIsReal(c, closure, DependenciesMissing)
  {
  }

  lemma {:induction false} CycleIsRefusal(c: Change, closure: seq<Dependency>, x: Id)
    requires Reaches(Parents(NodesOf(closure)), x, x)
    ensures RefusalIsReal(c, closure, DependencyCycle)
  {
    hide Reaches;
  }

  lemma {:induction false} UnrelatedIsRefusal(c: Change, closure: seq<Dependency>, x: Id)
    requires x in NodesOf(closure) && Unrelated(c, NodesOf(closure), x)
    ensures RefusalIsReal(c, closure, ExtraneousDependency)
  {
    hide Unrelated;
  }

  lemma {:induction false} PreviousIsRefusal(c: Change, closure: seq<Dependency>, x: Change)
    requires InRequest(c, closure, x) && !PredecessorPresent(c, NodesOf(closure), x)
    ensures RefusalIsReal(c, closure, PreviousMismatch)
  {
    hide InRequest;
    hide PredecessorPresent;
  }

  lemma {:induction false} OtherIsRefusal(c: Change, closure: seq<Dependency>)
    ensures c.inner in NodesOf(closure) ==> RefusalIsReal(c, closure, ChangeAlreadyPresent)
    ensures !DistinctSlots(c, closure) ==> RefusalIsReal(c, closure, ActorEquivocation)
  {
  }

  lemma {:induction false} WalkRefusalIsReal(c: Change, closure: seq<Dependency>)
    requires |closure| <= MAX_CLOSURE && FirstFault(c, closure, 0).None? && c.size + Total(closure) <= MAX_CLOSURE_BYTES
    requires CoreRequest(c, closure).Err? && DistinctNames(closure)
    ensures RefusalIsReal(c, closure, CoreRequest(c, closure).error)
  {
    hide RefusalIsReal;
    hide Walk;
    hide Sorted;
    hide NodesOf;
    hide Total;
    hide FirstFault;
    hide PredecessorPresent;
    hide OneChangePerSlot;
    hide Listed;
    hide Reaches;
    hide IsPath;
    hide DistinctNames;
    var nodes := NodesOf(closure);
    match Walk(Parents(nodes), |nodes|, [], [], Sorted(c.dependencies))
    case Missing(_) =>
      var p := CoreMissingIsReal(c, closure);
      MissingIsRefusal(c, closure, p);
    case Cycle(_) =>
      var x := CoreCycleIsReal(c, closure);
      CycleIsRefusal(c, closure, x);
    case OverLimit =>
      NeverOverLimit(c, nodes);
    case Done(order) =>
      DoneRefusalIsReal(c, closure, order);
  }

  lemma {:induction false} NeverOverLimit(c: Change, nodes: Nodes)
    ensures !Walk(Parents(nodes), |nodes|, [], [], Sorted(c.dependencies)).OverLimit?
  {
    assert |Parents(nodes)| == |nodes| by { assert Parents(nodes).Keys == nodes.Keys; }
    WalkHasRoom(Parents(nodes), |nodes|, [], [], Sorted(c.dependencies));
  }

  lemma {:induction false} DoneRefusalIsReal(c: Change, closure: seq<Dependency>, order: seq<Id>)
    requires |closure| <= MAX_CLOSURE && FirstFault(c, closure, 0).None? && c.size + Total(closure) <= MAX_CLOSURE_BYTES
    requires CoreRequest(c, closure).Err? && DistinctNames(closure)
    requires Walk(Parents(NodesOf(closure)), |NodesOf(closure)|, [], [], Sorted(c.dependencies)) == Done(order)
    ensures RefusalIsReal(c, closure, CoreRequest(c, closure).error)
  {
    hide RefusalIsReal;
    hide Walk;
    hide Sorted;
    hide NodesOf;
    hide Total;
    hide FirstFault;
    hide PredecessorPresent;
    hide OneChangePerSlot;
    hide DistinctNames;
    hide DistinctSlots;
    hide Unrelated;
    hide Listed;
    var nodes := NodesOf(closure);
    WalkInNodes(nodes, c, order);
    OtherIsRefusal(c, closure);
    if Elems(order) != nodes.Keys {
      var x :| x in nodes && x !in order;
      UnlistedIsUnrelated(c, nodes, order, x);
      UnrelatedIsRefusal(c, closure, x);
    } else if c.inner !in nodes {
      ListedContents(nodes, order, closure);
      if x :| x in Listed(nodes, order) + [c] && !PredecessorPresent(c, nodes, x) {
        assert InRequest(c, closure, x);
        PreviousIsRefusal(c, closure, x);
      } else {
        SharedSlotIsReal(c, closure, nodes, order);
      }
    }
  }

  lemma {:induction false} WalkInNodes(nodes: Nodes, c: Change, order: seq<Id>)
    requires Walk(Parents(nodes), |nodes|, [], [], Sorted(c.dependencies)) == Done(order)
    ensures Distinct(order) && forall x :: x in order ==> x in nodes
  {
    WalkTopological(Parents(nodes), |nodes|, [], [], Sorted(c.dependencies));
    hide Walk;
    assert forall i :: 0 <= i < |order| ==> order[i] in Parents(nodes);
  }

  // ---------------------------------------------------------------- independence from the tuple's order

  lemma {:induction false} ElemsWithout(a: seq<Dependency>, i: nat)
    requires Distinct(a) && i < |a|
    ensures Elems(a[..i] + a[i + 1..]) == Elems(a) - {a[i]} && Distinct(a[..i] + a[i + 1..])
  {
  }

  lemma {:induction false} TotalReordered(a: seq<Dependency>, b: seq<Dependency>)
    requires Distinct(a) && Distinct(b) && Elems(a) == Elems(b)
    ensures Total(a) == Total(b)
  {
    DistinctSize(a);
    DistinctSize(b);
    if a != [] {
      var n := |a| - 1;
      assert a[n] in Elems(b);
      var i :| 0 <= i < |b| && b[i] == a[n];
      var rest := b[..i] + b[i + 1..];
      TotalWithout(b, i);
      ElemsWithout(a, n);
      ElemsWithout(b, i);
      assert a[..n] + a[n + 1..] == a[..n];
      TotalReordered(a[..n], rest);
    }
  }

  lemma {:induction false} TotalWithout(b: seq<Dependency>, i: nat)
    requires i < |b|
    ensures Total(b) == Total(b[..i] + b[i + 1..]) + b[i].change.size
  {
    var n := |b| - 1;
    var rest := b[..i] + b[i + 1..];
    if i == n {
      assert rest == b[..n];
    } else {
      TotalWithout(b[..n], i);
      assert rest[..n - 1] == b[..n][..i] + b[..n][i + 1..];
      assert rest[n - 1] == b[n];
    }
  }

  /** Distinct members of a list weigh no more than the list. */
  lemma {:induction false} TotalWithin(a: seq<Dependency>, b: seq<Dependency>)
    requires Distinct(a) && forall x :: x in a ==> x in b
    ensures Total(a) <= Total(b)
  {
    if a != [] {
      var n := |a| - 1;
      assert a[n] in b;
      var i :| 0 <= i < |b| && b[i] == a[n];
      var rest := b[..i] + b[i + 1..];
      TotalWithout(b, i);
      assert b == b[..i] + [b[i]] + b[i + 1..];
      forall x | x in a[..n]
        ensures x in rest
      {
        assert x in b && x != a[n];
      }
      TotalWithin(a[..n], rest);
    }
  }

  /** The request does not depend on the order in which the closure is handed over. */
  lemma {:induction false} CoreIgnoresTupleOrder(c: Change, a: seq<Dependency>, b: seq<Dependency>)
    requires CoreRequest(c, a).Ok? && Elems(a) == Elems(b) && |a| == |b|
    ensures CoreRequest(c, b) == CoreRequest(c, a)
  {
    hide Walk;
    hide Sorted;
    hide NodesOf;
    hide Total;
    hide Reaches;
    ScanAccepts(c, a);
    assert Distinct(a) by {
      assert forall i, j :: 0 <= i < j < |a| ==> !SameName(a[i], a[j]);
    }
    DistinctSize(a);
    DistinctFromSize(b);
    assert DistinctNames(b) by {
      forall i, j | 0 <= i < j < |b|
        ensures !SameName(b[i], b[j])
      {
        assert b[i] in Elems(a) && b[j] in Elems(a);
        var i' :| 0 <= i' < |a| && a[i'] == b[i];
        var j' :| 0 <= j' < |a| && a[j'] == b[j];
        assert i' != j';
        if i' < j' { assert !SameName(a[i'], a[j']); } else { assert !SameName(a[j'], a[i']); }
      }
    }
    assert forall d :: d in b ==> d in Elems(a);
    ScanAccepts(c, b);
    NodesOfContents(a);
    NodesOfContents(b);
    assert NodesOf(a) == NodesOf(b) by {
      assert forall k :: k in NodesOf(a) ==> NodesOf(a)[k] in Elems(b);
      assert forall k :: k in NodesOf(b) ==> NodesOf(b)[k] in Elems(a);
    }
    TotalReordered(a, b);
  }

  // ---------------------------------------------------------------- author histories

  ghost predicate InRequest(c: Change, closure: seq<Dependency>, x: Change) {
    x == c || exists d :: d in closure && d.change == x
  }

  ghost predicate SlotFilled(c: Change, closure: seq<Dependency>, actor: Id, n: nat) {
    exists z :: InRequest(c, closure, z) && z.actor == actor && z.sequence == n
  }

  /** The ancestor of `y` by the same author with sequence number `n`. */
  lemma {:induction false} ActorRun(c: Change, closure: seq<Dependency>, y: Change, n: nat) returns (z: Change)
    requires CoreRequest(c, closure).Ok? && InRequest(c, closure, y) && 1 <= n < y.sequence
    ensures z.inner in NodesOf(closure) && NodesOf(closure)[z.inner].change == z && NodesOf(closure)[z.inner] in closure
    ensures z.actor == y.actor && z.sequence == n
    ensures Reaches(WithCandidate(c, NodesOf(closure)), y.inner, z.inner)
    decreases y.sequence
  {
    hide Walk;
    hide Sorted;
    hide NodesOf;
    hide CoreRequest;
    hide Reaches;
    hide Total;
    hide ExactAcyclicClosure;
    AcceptedIsAcceptable(c, closure);
    NodesOfContents(closure);
    var nodes := NodesOf(closure);
    assert PredecessorPresent(c, nodes, y);
    var k :| k in nodes && y.previous == Some(nodes[k].envelope) && Precedes(c, nodes, y, nodes[k].change);
    var p := nodes[k].change;
    assert nodes[k] in closure;
    if n == p.sequence {
      z := p;
    } else {
      z := ActorRun(c, closure, p, n);
      ReachesTransitive(WithCandidate(c, nodes), y.inner, p.inner, z.inner);
    }
  }

  /**
   In an accepted request one author's changes form a causal chain: the sequence numbers
   up to any change are all present, and a lower number is an ancestor of a higher one.
   */
  lemma {:induction false} ActorHistoriesAreChains(c: Change, closure: seq<Dependency>, x: Change, y: Change)
    requires CoreRequest(c, closure).Ok? && InRequest(c, closure, x) && InRequest(c, closure, y)
    requires x.actor == y.actor
    ensures x.sequence < y.sequence ==> Reaches(WithCandidate(c, NodesOf(closure)), y.inner, x.inner)
    ensures x.sequence == y.sequence ==> x == y
    ensures forall n: nat :: 1 <= n <= y.sequence ==> SlotFilled(c, closure, y.actor, n)
  {
    hide Walk;
    hide Sorted;
    hide NodesOf;
    hide CoreRequest;
    hide Reaches;
    hide Total;
    hide ExactAcyclicClosure;
    AcceptedIsAcceptable(c, closure);
    if x.sequence < y.sequence {
      var z := ActorRun(c, closure, y, x.sequence);
      assert SameSlot(x, z);
      if x != c {
        var d :| d in closure && d.change == x;
        assert d == NodesOf(closure)[z.inner];
      }
    }
    forall n: nat | 1 <= n <= y.sequence
      ensures SlotFilled(c, closure, y.actor, n)
    {
      if n == y.sequence {
        assert InRequest(c, closure, y);
      } else {
        var z := ActorRun(c, closure, y, n);
        assert InRequest(c, closure, z);
      }
    }
  }

  lemma {:induction false} AcceptedBounds(c: Change, closure: seq<Dependency>, y: Change)
    requires CoreRequest(c, closure).Ok? && InRequest(c, closure, y)
    ensures 1 <= y.sequence && |NodesOf(closure)| <= |closure| <= MAX_CLOSURE
  {
    hide CoreRequest;
    hide NodesOf;
    hide Reaches;
    hide Total;
    hide ExactAcyclicClosure;
    AcceptedIsAcceptable(c, closure);
    NodesOfContents(closure);
    assert PredecessorPresent(c, NodesOf(closure), y);
  }

  /** The hashes of the author's changes before `y`, by sequence number. */
  lemma {:induction false} EarlierByActor(c: Change, closure: seq<Dependency>, y: Change, n: nat) returns (ids: seq<Id>)
    requires CoreRequest(c, closure).Ok? && InRequest(c, closure, y) && n < y.sequence
    ensures |ids| == n
    ensures forall i :: 0 <= i < n ==> ids[i] in NodesOf(closure) && NodesOf(closure)[ids[i]].change.sequence == i + 1
  {
    hide CoreRequest;
    hide NodesOf;
    hide Reaches;
    hide InRequest;
    hide WithCandidate;
    if n == 0 {
      ids := [];
    } else {
      var before := EarlierByActor(c, closure, y, n - 1);
      var z := ActorRun(c, closure, y, n);
      ids := before + [z.inner];
    }
  }

  /** So no accepted sequence number exceeds the closure's size plus one. */
  lemma {:induction false} SequenceIsBounded(c: Change, closure: seq<Dependency>, y: Change)
    requires CoreRequest(c, closure).Ok? && InRequest(c, closure, y)
    ensures 1 <= y.sequence <= |closure| + 1 <= MAX_CLOSURE + 1
  {
    hide CoreRequest;
    hide NodesOf;
    hide InRequest;
    AcceptedBounds(c, closure, y);
    var ids := EarlierByActor(c, closure, y, y.sequence - 1);
    DistinctFits(ids, NodesOf(closure).Keys);
  }
}
