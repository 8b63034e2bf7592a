/** The per-change causal checks that `_collect` makes over its own selection. */
module CausalCheck {
  import opened Ordering
  import opened ClosureWalk
  import opened Contracts
  import opened Selection

  /** Inner hashes of the proper ancestors of a change of the pool. */
  ghost function Ancestors(p: Pool, ch: Change): set<Id> {
    set k | k in p.inners && Reaches(InnerGraph(p), ch.inner, k)
  }

  function AsDependency(p: Pool, k: Id): Dependency
    requires k in p.inners && p.inners[k] in p.changes
  {
    Dependency(p.inners[k], p.changes[p.inners[k]])
  }

  /** `tuple(Dependency(...) for cid in sorted(closure))`. */
  function ClosureTuple(p: Pool, closure: set<Id>): seq<Dependency>
    requires forall k :: k in closure ==> k in p.inners && p.inners[k] in p.changes
  {
    var ks := Sorted(closure);
    seq(|ks|, i requires 0 <= i < |ks| => AsDependency(p, ks[i]))
  }

  function SelectedDependencies(p: Pool, ids: seq<Id>): seq<Dependency>
    requires forall e :: e in ids ==> e in p.changes
  {
    seq(|ids|, i requires 0 <= i < |ids| => Dependency(ids[i], p.changes[ids[i]]))
  }

  /** Same author, previous number, named by its envelope, and an ancestor. */
  ghost predicate PredecessorInPool(p: Pool, x: Change) {
    x.sequence == 1 ||
    (x.previous.Some? && x.previous.value in p.changes &&
     var y := p.changes[x.previous.value];
     y.actor == x.actor && y.sequence == x.sequence - 1 && Reaches(InnerGraph(p), x.inner, y.inner))
  }

  ghost predicate CausallySound(p: Pool, ch: Change) {
    && PredecessorInPool(p, ch)
    && forall k :: k in Ancestors(p, ch) && p.inners[k] in p.changes ==>
         AsDependency(p, k).change.context == ch.context && PredecessorInPool(p, AsDependency(p, k).change)
  }

  ghost function AncestorNodes(p: Pool, closure: set<Id>): Nodes
    requires forall k :: k in closure ==> k in p.inners && p.inners[k] in p.changes
  {
    map k | k in closure :: AsDependency(p, k)
  }

  lemma {:induction false} TupleMembers(p: Pool, closure: set<Id>)
    requires ValidPool(p) && closure <= p.inners.Keys
    ensures var t := ClosureTuple(p, closure);
            && DistinctNames(t) && |t| == |closure|
            && (forall k :: k in closure ==> AsDependency(p, k) in t)
            && (forall d :: d in t ==> d.change.inner in closure && d == AsDependency(p, d.change.inner))
  {
    hide Sorted;
    var t, ks := ClosureTuple(p, closure), Sorted(closure);
    assert forall i :: 0 <= i < |t| ==> ks[i] in ks && t[i].change.inner == ks[i] && t[i] == AsDependency(p, ks[i]);
    forall k | k in closure
      ensures AsDependency(p, k) in t
    {
      assert k in ks;
      var i :| 0 <= i < |ks| && ks[i] == k;
      assert t[i] == AsDependency(p, k);
    }
  }

  lemma {:induction false} TupleNodes(p: Pool, closure: set<Id>)
    requires ValidPool(p) && closure <= p.inners.Keys
    ensures NodesOf(ClosureTuple(p, closure)) == AncestorNodes(p, closure)
  {
    hide NodesOf;
    hide ClosureTuple;
    hide Sorted;
    hide DistinctNames;
    var t := ClosureTuple(p, closure);
    TupleMembers(p, closure);
    NodesOfContents(t);
    forall k | k in closure
      ensures k in NodesOf(t) && NodesOf(t)[k] == AsDependency(p, k)
    {
      assert AsDependency(p, k) in t && AsDependency(p, k).change.inner == k;
    }
    forall k | k in NodesOf(t)
      ensures k in closure
    {
      assert NodesOf(t)[k] in t;
    }
  }

  /** The part of the pool's graph around one change: its ancestors and itself. */
  ghost function Around(p: Pool, ch: Change): Graph<Id> {
    map k | k in InnerGraph(p) && (k in Ancestors(p, ch) || k == ch.inner) :: InnerGraph(p)[k]
  }

  /** It is the graph that the checker works on. */
  lemma {:induction false} TupleGraph(p: Pool, ch: Change)
    requires ValidPool(p) && ch.inner in p.inners && p.changes[p.inners[ch.inner]] == ch
    ensures WithCandidate(ch, AncestorNodes(p, Ancestors(p, ch))) == Around(p, ch)
  {
    hide Sorted;
    hide Reaches;
  }

  /** Dependencies of selected changes are known, so ancestry does not leave the pool. */
  lemma {:induction false} AncestryInPool(p: Pool, roots: set<Id>, ids: seq<Id>, i: nat, x: Id)
    requires Selected(p, roots, ids) && i < |ids| && Reaches(InnerGraph(p), p.changes[ids[i]].inner, x)
    ensures x in InnerOrder(p, ids)[..i] && x in p.inners
  {
    hide Select;
    hide Sorted;
    SelectedTopological(p, roots, ids);
    var g, order := InnerGraph(p), InnerOrder(p, ids);
    var q :| IsPath(g, q) && |q| >= 2 && q[0] == p.changes[ids[i]].inner && q[|q| - 1] == x;
    PathDescends(g, order, i, q);
    var j :| 0 <= j < i && order[j] == x;
    assert ids[j] in ids;
  }

  lemma {:induction false} AroundIsClosed(p: Pool, roots: set<Id>, ids: seq<Id>, i: nat, x: Id, c: Id)
    requires Selected(p, roots, ids) && i < |ids|
    requires x in Around(p, p.changes[ids[i]]) && c in Around(p, p.changes[ids[i]])[x]
    ensures c in Around(p, p.changes[ids[i]])
  {
    hide Select;
    hide Sorted;
    hide Reaches;
    hide ParentsEarlier;
    var ch, g := p.changes[ids[i]], InnerGraph(p);
    ParentReached(g, x, c);
    if x != ch.inner {
      ReachesTransitive(g, ch.inner, x, c);
    }
    AncestryInPool(p, roots, ids, i, c);
  }

  lemma {:induction false} AroundReaches(p: Pool, roots: set<Id>, ids: seq<Id>, i: nat, x: Id, y: Id)
    requires Selected(p, roots, ids) && i < |ids| && x in Around(p, p.changes[ids[i]])
    ensures Reaches(Around(p, p.changes[ids[i]]), x, y) <==> Reaches(InnerGraph(p), x, y)
  {
    hide Select;
    hide Sorted;
    hide Reaches;
    hide ParentsEarlier;
    var ch := p.changes[ids[i]];
    forall a, c | a in Around(p, ch) && c in Around(p, ch)[a]
      ensures c in Around(p, ch)
    {
      AroundIsClosed(p, roots, ids, i, a, c);
    }
    SubgraphReaches(InnerGraph(p), Around(p, ch), x, y);
  }

  lemma {:induction false} AroundIsAcyclic(p: Pool, roots: set<Id>, ids: seq<Id>, i: nat, x: Id)
    requires Selected(p, roots, ids) && i < |ids|
    ensures !Reaches(Around(p, p.changes[ids[i]]), x, x)
  {
    hide Select;
    hide Sorted;
    hide Reaches;
    var ch := p.changes[ids[i]];
    if Reaches(Around(p, ch), x, x) {
      ReachesFromKnown(Around(p, ch), x, x);
      SubgraphReaches(InnerGraph(p), Around(p, ch), x, x);
      SelectedTopological(p, roots, ids);
      hide ParentsEarlier;
      hide Topological;
      if x == ch.inner {
        assert InnerOrder(p, ids)[i] == x;
      } else {
        AncestryInPool(p, roots, ids, i, x);
      }
      TopologicalAcyclic(InnerGraph(p), InnerOrder(p, ids), x);
    }
  }

  /** The closure handed over is exactly the acyclic ancestor set. */
  lemma {:induction false} TupleIsExact(p: Pool, roots: set<Id>, ids: seq<Id>, i: nat)
    requires Selected(p, roots, ids) && i < |ids|
    ensures var ch := p.changes[ids[i]];
            ExactAcyclicClosure(ch, NodesOf(ClosureTuple(p, Ancestors(p, ch))))
  {
    hide Select;
    hide Sorted;
    hide Reaches;
    hide ParentsEarlier;
    var ch := p.changes[ids[i]];
    assert ids[i] in ids;
    var anc := Ancestors(p, ch);
    TupleNodes(p, anc);
    TupleGraph(p, ch);
    hide NodesOf;
    hide ClosureTuple;
    hide WithCandidate;
    forall x
      ensures !Reaches(Around(p, ch), x, x)
      ensures x in anc <==> Reaches(Around(p, ch), ch.inner, x)
    {
      AroundIsAcyclic(p, roots, ids, i, x);
      AroundReaches(p, roots, ids, i, ch.inner, x);
      if Reaches(InnerGraph(p), ch.inner, x) {
        AncestryInPool(p, roots, ids, i, x);
      }
    }
  }

  lemma {:induction false} AncestorsSelected(p: Pool, roots: set<Id>, ids: seq<Id>, i: nat)
    requires Selected(p, roots, ids) && i < |ids|
    ensures var ch := p.changes[ids[i]];
            && |Ancestors(p, ch)| <= i && ch.inner !in Ancestors(p, ch)
            && (forall k :: k in Ancestors(p, ch) ==> AsDependency(p, k) in SelectedDependencies(p, ids))
  {
    hide Select;
    hide Sorted;
    var ch, order := p.changes[ids[i]], InnerOrder(p, ids);
    assert ids[i] in ids && order[i] == ch.inner;
    SelectedTopological(p, roots, ids);
    forall k | k in Ancestors(p, ch)
      ensures k in order[..i] && AsDependency(p, k) in SelectedDependencies(p, ids)
    {
      AncestryInPool(p, roots, ids, i, k);
      var j :| 0 <= j < i && order[j] == k;
      assert ids[j] in ids && SelectedDependencies(p, ids)[j] == AsDependency(p, k);
    }
    hide Reaches;
    SubsetSize(Ancestors(p, ch), Elems(order[..i]));
    DistinctSize(order[..i]);
  }

  /** The closure and its candidate are distinct members of the selection, so they fit its budget. */
  lemma {:induction false} TupleFits(p: Pool, roots: set<Id>, ids: seq<Id>, i: nat)
    requires Selected(p, roots, ids) && i < |ids|
    ensures var ch := p.changes[ids[i]];
            var t := ClosureTuple(p, Ancestors(p, ch));
            && |t| < MAX_CLOSURE && Total(t) + ch.size <= Total(SelectedDependencies(p, ids))
  {
    hide Select;
    hide Sorted;
    hide Reaches;
    hide ParentsEarlier;
    var ch := p.changes[ids[i]];
    var anc := Ancestors(p, ch);
    var t, all := ClosureTuple(p, anc), SelectedDependencies(p, ids);
    TupleMembers(p, anc);
    AncestorsSelected(p, roots, ids, i);
    var own := Dependency(ids[i], ch);
    assert all[i] == own;
    var a := t + [own];
    hide ClosureTuple;
    hide SelectedDependencies;
    assert Distinct(a) by {
      assert forall x, y :: 0 <= x < y < |t| ==> !SameName(t[x], t[y]);
      assert forall x :: 0 <= x < |t| ==> t[x] in t && t[x].change.inner in anc;
    }
    TotalWithin(a, all);
    assert a[..|t|] == t;
  }

  // ---------------------------------------------------------------- the verdict

  lemma {:induction false} PredecessorsMatch(p: Pool, roots: set<Id>, ids: seq<Id>, i: nat, x: Id)
    requires Selected(p, roots, ids) && i < |ids| && x in Around(p, p.changes[ids[i]])
    ensures var ch := p.changes[ids[i]];
            PredecessorPresent(ch, AncestorNodes(p, Ancestors(p, ch)), p.changes[p.inners[x]])
            <==> PredecessorInPool(p, p.changes[p.inners[x]])
  {
    hide Select;
    hide Sorted;
    hide Reaches;
    hide ParentsEarlier;
    var ch := p.changes[ids[i]];
    assert ids[i] in ids;
    var anc := Ancestors(p, ch);
    var nodes, y := AncestorNodes(p, anc), p.changes[p.inners[x]];
    TupleGraph(p, ch);
    hide WithCandidate;
    if PredecessorPresent(ch, nodes, y) && y.sequence != 1 {
      var k :| k in nodes && y.previous == Some(nodes[k].envelope) && Precedes(ch, nodes, y, nodes[k].change);
      AroundReaches(p, roots, ids, i, x, k);
    }
    if PredecessorInPool(p, y) && y.sequence != 1 {
      var k := p.changes[y.previous.value].inner;
      AroundReaches(p, roots, ids, i, x, k);
      if x != ch.inner {
        ReachesTransitive(InnerGraph(p), ch.inner, x, k);
      }
      assert k in anc && y.previous == Some(nodes[k].envelope) && Precedes(ch, nodes, y, nodes[k].change);
    }
  }

  lemma {:induction false} TupleSlots(p: Pool, ch: Change)
    requires ValidPool(p) && ch.inner in p.inners && p.changes[p.inners[ch.inner]] == ch
    requires ch.inner !in Ancestors(p, ch)
    ensures DistinctSlots(ch, ClosureTuple(p, Ancestors(p, ch)))
  {
    hide Sorted;
    hide Reaches;
    var t := ClosureTuple(p, Ancestors(p, ch));
    TupleMembers(p, Ancestors(p, ch));
    hide ClosureTuple;
    forall d | d in t
      ensures !SameSlot(d.change, ch)
    {
      assert p.changes[d.envelope] == d.change;
    }
  }

  /**
   The closures that `_collect` builds can never be refused by `core_request` as missing,
   cyclic, extraneous, equivocating, already present or over budget: it accepts exactly the
   causally sound changes and refuses the others for context or predecessor.
   */
  lemma {:induction false} CollectedClosureVerdict(p: Pool, roots: set<Id>, ids: seq<Id>, i: nat)
    requires Selected(p, roots, ids) && i < |ids| && Total(SelectedDependencies(p, ids)) <= MAX_CLOSURE_BYTES
    ensures var ch := p.changes[ids[i]];
            var r := CoreRequest(ch, ClosureTuple(p, Ancestors(p, ch)));
            && (r.Ok? <==> CausallySound(p, ch))
            && (r.Ok? || r.error in {DependencyScopeMismatch, PreviousMismatch})
  {
    hide Select;
    hide Sorted;
    hide Reaches;
    hide ParentsEarlier;
    hide CoreRequest;
    hide ExactAcyclicClosure;
    hide PredecessorPresent;
    hide PredecessorInPool;
    var ch := p.changes[ids[i]];
    assert ids[i] in ids;
    var anc := Ancestors(p, ch);
    var t := ClosureTuple(p, anc);
    TupleFits(p, roots, ids, i);
    TupleIsExact(p, roots, ids, i);
    TupleMembers(p, anc);
    TupleNodes(p, anc);
    AncestorsSelected(p, roots, ids, i);
    TupleSlots(p, ch);
    hide ClosureTuple;
    hide NodesOf;
    hide DistinctSlots;
    ExactClosureVerdict(ch, t);
    CoreAcceptsExactly(ch, t);
    forall x | x in anc || x == ch.inner
      ensures PredecessorPresent(ch, NodesOf(t), p.changes[p.inners[x]]) <==> PredecessorInPool(p, p.changes[p.inners[x]])
    {
      PredecessorsMatch(p, roots, ids, i, x);
    }
    forall k | k in anc
      ensures AsDependency(p, k) in t && AsDependency(p, k).change == p.changes[p.inners[k]]
    {
    }
  }
}
