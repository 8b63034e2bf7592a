/** `core_request` step by step: the loops and the traversal, against the function of `Contracts`. */
module Admission {
  import opened Ordering
  import opened ClosureWalk
  import opened Contracts

  /**
   The predecessor worklist. Inside a closed set of known keys its own missing-dependency
   branch is dead, and it collects a closed set no larger than that.
   */
  method RunWorklist(g: Graph<Id>, roots: seq<Id>, ghost upper: set<Id>) returns (reachable: set<Id>)
    requires Closed(g, upper) && upper <= g.Keys && forall x :: x in roots ==> x in upper
    ensures Closed(g, reachable) && reachable <= upper && forall x :: x in roots ==> x in reachable
  {
    reachable := {};
    var todo := roots;
    while todo != []
      invariant reachable <= upper && forall x :: x in todo ==> x in upper
      invariant forall x :: x in roots ==> x in reachable || x in todo
      invariant forall x, k :: x in reachable && k in g[x] ==> k in reachable || k in todo
      decreases g.Keys - reachable, |todo|
    {
      var x := todo[|todo| - 1];
      assert todo == todo[..|todo| - 1] + [x];
      todo := todo[..|todo| - 1];
      if x !in reachable {
        if x !in g {
          assert false;
        }
        reachable := reachable + {x};
        todo := todo + g[x];
      }
    }
  }

  /** What it collects for one change of a finished walk: exactly that change's proper ancestors. */
  method CollectAncestors(nodes: Nodes, current: Change, ghost c: Change, ghost order: seq<Id>) returns (reachable: set<Id>)
    requires Topological(Parents(nodes), order) && c.inner !in nodes
    requires current.inner in WithCandidate(c, nodes) && WithCandidate(c, nodes)[current.inner] == Sorted(current.dependencies)
    requires forall k :: k in current.dependencies ==> k in order
    ensures forall x :: x in reachable <==> Reaches(WithCandidate(c, nodes), current.inner, x)
  {
    ghost var full := WithCandidate(c, nodes);
    ghost var upper := set x | x in order && Reaches(full, current.inner, x);
    AncestorsClosed(nodes, current, c, order);
    reachable := RunWorklist(Parents(nodes), Sorted(current.dependencies), upper);
    assert Closed(full, reachable);
    hide Reaches;
    hide Sorted;
    forall x | Reaches(full, current.inner, x)
      ensures x in reachable
    {
      ReachesStays(full, current.inner, x, reachable);
    }
  }

  lemma {:induction false} AncestorsClosed(nodes: Nodes, current: Change, c: Change, order: seq<Id>)
    requires Topological(Parents(nodes), order) && c.inner !in nodes
    requires current.inner in WithCandidate(c, nodes) && WithCandidate(c, nodes)[current.inner] == Sorted(current.dependencies)
    requires forall k :: k in current.dependencies ==> k in order
    ensures var upper := set x | x in order && Reaches(WithCandidate(c, nodes), current.inner, x);
            Closed(Parents(nodes), upper) && upper <= nodes.Keys && forall x :: x in Sorted(current.dependencies) ==> x in upper
  {
    hide Sorted;
    hide Reaches;
    var full := WithCandidate(c, nodes);
    forall x | x in Sorted(current.dependencies)
      ensures x in order && Reaches(full, current.inner, x)
    {
      ParentReached(full, current.inner, x);
    }
    forall x, k | x in order && Reaches(full, current.inner, x) && k in Parents(nodes)[x]
      ensures k in order && Reaches(full, current.inner, k)
    {
      var i :| 0 <= i < |order| && order[i] == x;
      assert k in order[..i];
      ParentReached(full, x, k);
      ReachesTransitive(full, current.inner, x, k);
    }
  }

  ghost predicate EnvelopeIndex(byEnvelope: map<Id, Dependency>, closure: seq<Dependency>) {
    && (forall e :: e in byEnvelope ==> byEnvelope[e] in closure && byEnvelope[e].envelope == e)
    && (forall d :: d in closure ==> d.envelope in byEnvelope && byEnvelope[d.envelope] == d)
  }

  lemma {:induction false} MoreDistinct(closure: seq<Dependency>, i: nat)
    requires i < |closure| && DistinctNames(closure[..i])
    ensures (forall j :: 0 <= j < i ==> !SameName(closure[j], closure[i])) ==> DistinctNames(closure[..i + 1])
  {
  }

  /** Looking a name up in the two indexes is comparing it with every earlier item. */
  lemma {:induction false} ScanStep(c: Change, closure: seq<Dependency>, i: nat, byEnvelope: map<Id, Dependency>)
    requires i < |closure| && DistinctNames(closure[..i]) && EnvelopeIndex(byEnvelope, closure[..i])
    ensures var d := closure[i];
            var named := d.change.inner in NodesOf(closure[..i]) || d.envelope in byEnvelope;
            && (d.change.context == c.context ==>
                  ItemFault(c, closure, i) == if named then Some(DependencyEquivocation) else None)
            && (!named ==> DistinctNames(closure[..i + 1]))
  {
    var prefix, d := closure[..i], closure[i];
    NodesOfContents(prefix);
    hide NodesOf;
    MoreDistinct(closure, i);
    hide DistinctNames;
    if d.change.inner in NodesOf(prefix) || d.envelope in byEnvelope {
      var other := if d.change.inner in NodesOf(prefix) then NodesOf(prefix)[d.change.inner] else byEnvelope[d.envelope];
      var j :| 0 <= j < |prefix| && prefix[j] == other;
      assert SameName(closure[j], d);
    } else {
      forall j | 0 <= j < i
        ensures !SameName(closure[j], d)
      {
        assert prefix[j] == closure[j] && prefix[j] in prefix;
      }
    }
  }

  method IndexClosure(c: Change, closure: seq<Dependency>)
    returns (fault: Option<Code>, nodes: Nodes, byEnvelope: map<Id, Dependency>, total: nat)
    ensures fault == FirstFault(c, closure, 0)
    ensures fault.None? ==> nodes == NodesOf(closure) && total == c.size + Total(closure)
    ensures fault.None? ==> EnvelopeIndex(byEnvelope, closure)
  {
    nodes, byEnvelope, total := map[], map[], c.size;
    for i := 0 to |closure|
      invariant FirstFault(c, closure, 0) == FirstFault(c, closure, i)
      invariant nodes == NodesOf(closure[..i]) && total == c.size + Total(closure[..i])
      invariant DistinctNames(closure[..i]) && EnvelopeIndex(byEnvelope, closure[..i])
    {
      var d := closure[i];
      ScanStep(c, closure, i, byEnvelope);
      if d.change.context != c.context { return Some(DependencyScopeMismatch), nodes, byEnvelope, total; }
      if d.change.inner in nodes || d.envelope in byEnvelope {
        return Some(DependencyEquivocation), nodes, byEnvelope, total;
      }
      assert closure[..i + 1] == closure[..i] + [d] && closure[..i + 1][..i] == closure[..i];
      nodes := nodes[d.change.inner := d];
      byEnvelope := byEnvelope[d.envelope := d];
      total := total + d.change.size;
    }
    assert closure[..|closure|] == closure;
    fault := None;
  }

  method CheckPredecessor(c: Change, nodes: Nodes, byEnvelope: map<Id, Dependency>, current: Change,
                          ghost closure: seq<Dependency>, ghost order: seq<Id>) returns (ok: bool)
    requires DistinctNames(closure) && nodes == NodesOf(closure) && c.inner !in nodes
    requires Topological(Parents(nodes), order)
    requires current.inner in WithCandidate(c, nodes) && WithCandidate(c, nodes)[current.inner] == Sorted(current.dependencies)
    requires forall k :: k in current.dependencies ==> k in order
    requires EnvelopeIndex(byEnvelope, closure)
    ensures ok <==> PredecessorPresent(c, nodes, current)
  {
    NodesOfContents(closure);
    hide NodesOf;
    hide Reaches;
    hide Sorted;
    hide WithCandidate;
    if current.sequence == 1 { return true; }
    if current.previous.None? { return false; }
    var e := current.previous.value;
    if e !in byEnvelope { return false; }
    var p := byEnvelope[e].change;
    assert forall k :: k in nodes && nodes[k].envelope == e ==> nodes[k] == byEnvelope[e];
    if p.actor != current.actor || p.sequence != current.sequence - 1 { return false; }
    var reachable := CollectAncestors(nodes, current, c, order);
    ok := p.inner in reachable;
    if ok {
      assert nodes[p.inner] == byEnvelope[e];
      assert Precedes(c, nodes, current, nodes[p.inner].change);
    }
  }

  method CheckSlots(changes: seq<Change>) returns (ok: bool)
    ensures ok <==> OneChangePerSlot(changes)
  {
    var slots: map<(Id, nat), Id> := map[];
    for i := 0 to |changes|
      invariant OneChangePerSlot(changes[..i])
      invariant forall j :: 0 <= j < i ==> (changes[j].actor, changes[j].sequence) in slots
                                           && slots[(changes[j].actor, changes[j].sequence)] == changes[j].inner
      invariant forall s :: s in slots ==> exists j :: 0 <= j < i && s == (changes[j].actor, changes[j].sequence)
    {
      var d := changes[i];
      var slot := (d.actor, d.sequence);
      if slot in slots && slots[slot] != d.inner {
        var j :| 0 <= j < i && slot == (changes[j].actor, changes[j].sequence);
        assert SameSlot(changes[j], changes[i]);
        return false;
      }
      assert OneChangePerSlot(changes[..i + 1]) by {
        forall a, b | 0 <= a < b <= i && SameSlot(changes[a], changes[b])
          ensures changes[a].inner == changes[b].inner
        {
          if b < i { assert changes[..i][a] == changes[a] && changes[..i][b] == changes[b]; }
        }
      }
      slots := slots[slot := d.inner];
    }
    assert changes[..|changes|] == changes;
    ok := true;
  }

  method RunCoreRequest(c: Change, closure: seq<Dependency>) returns (r: Result<Request, Code>)
    ensures r == CoreRequest(c, closure)
  {
    hide Walk;
    hide Sorted;
    hide NodesOf;
    hide Total;
    hide FirstFault;
    hide Reaches;
    hide PredecessorPresent;
    hide OneChangePerSlot;
    if |closure| > MAX_CLOSURE { return Err(ResourceLimit); }
    var fault, nodes, byEnvelope, total := IndexClosure(c, closure);
    if fault.Some? { return Err(fault.value); }
    if total > MAX_CLOSURE_BYTES { return Err(ResourceLimit); }
    var walker := new Walker(Parents(nodes), |nodes|);
    assert Parents(nodes).Keys == nodes.Keys;
    WalkHasRoom(Parents(nodes), |nodes|, [], [], Sorted(c.dependencies));
    var out := walker.VisitAll(Sorted(c.dependencies), []);
    match out
    case Missing(_) => return Err(DependenciesMissing);
    case Cycle(_) => return Err(DependencyCycle);
    case OverLimit => assert false;
    case Done(order) =>
      r := FinishRequest(c, closure, nodes, byEnvelope, order, walker.seen);
  }

  method FinishRequest(c: Change, closure: seq<Dependency>, nodes: Nodes, byEnvelope: map<Id, Dependency>,
                       order: seq<Id>, seen: set<Id>) returns (r: Result<Request, Code>)
    requires |closure| <= MAX_CLOSURE && FirstFault(c, closure, 0).None? && c.size + Total(closure) <= MAX_CLOSURE_BYTES
    requires nodes == NodesOf(closure)
    requires Walk(Parents(nodes), |nodes|, [], [], Sorted(c.dependencies)) == Done(order) && seen == Elems(order)
    requires EnvelopeIndex(byEnvelope, closure)
    ensures r == CoreRequest(c, closure)
  {
    ScanAccepts(c, closure);
    hide Walk;
    hide Sorted;
    hide NodesOf;
    hide Total;
    hide FirstFault;
    hide Reaches;
    hide PredecessorPresent;
    hide OneChangePerSlot;
    hide Topological;
    if seen != nodes.Keys { return Err(ExtraneousDependency); }
    if c.inner in nodes { return Err(ChangeAlreadyPresent); }
    WalkListsAncestors(c, nodes, order);
    var all := Listed(nodes, order) + [c];
    assert all[|order|] == c;
    for i := 0 to |all|
      invariant forall j :: 0 <= j < i ==> PredecessorPresent(c, nodes, all[j])
    {
      MemberOfRequest(c, closure, nodes, order, i);
      var ok := CheckPredecessor(c, nodes, byEnvelope, all[i], closure, order);
      if !ok {
        assert all[i] in all;
        return Err(PreviousMismatch);
      }
    }
    var ok := CheckSlots(all);
    if !ok { return Err(ActorEquivocation); }
    r := Ok(Request(c, Listed(nodes, order)));
  }

  lemma {:induction false} MemberOfRequest(c: Change, closure: seq<Dependency>, nodes: Nodes, order: seq<Id>, i: nat)
    requires DistinctNames(closure) && nodes == NodesOf(closure) && c.inner !in nodes
    requires Elems(order) == nodes.Keys && Topological(Parents(nodes), order) && i <= |order|
    requires forall k :: k in Sorted(c.dependencies) ==> k in order
    ensures var x := (Listed(nodes, order) + [c])[i];
            && x.inner in WithCandidate(c, nodes) && WithCandidate(c, nodes)[x.inner] == Sorted(x.dependencies)
            && (forall k :: k in x.dependencies ==> k in order)
  {
    NodesOfContents(closure);
    hide NodesOf;
    hide Sorted;
    if i < |order| {
      var x := nodes[order[i]].change;
      assert order[i] in Elems(order) && x.inner == order[i];
      forall k | k in x.dependencies
        ensures k in order
      {
        assert k in Parents(nodes)[order[i]];
        assert k in order[..i];
      }
    } else {
      assert forall k :: k in c.dependencies ==> k in Sorted(c.dependencies);
    }
  }
}
