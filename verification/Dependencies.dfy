/** Closure extraction from the authenticated store: `product/wp04/dependencies.py`. */
module Dependencies {
  import opened Ordering
  import opened ClosureWalk
  import opened Contracts

  /**
   A committed envelope of the candidate's space, object and epoch: the hash it is indexed
   under, and the change that decoding, certificate check, opening and header validation give.
   */
  datatype Row = Row(changeHash: Id, content: Option<Change>)

  type Store = map<Id, Row>

  function RowsFor(store: Store, cid: Id): set<Id> {
    set e | e in store && store[e].changeHash == cid
  }

  /** Exactly one row, which opens to the change of that hash. */
  ghost predicate Readable(store: Store, cid: Id) {
    exists e :: RowsFor(store, cid) == {e} && store[e].content.Some? && store[e].content.value.inner == cid
  }

  ghost function Fetched(store: Store, cid: Id): Dependency
    requires Readable(store, cid)
  {
    var e :| RowsFor(store, cid) == {e} && store[e].content.Some? && store[e].content.value.inner == cid;
    Dependency(e, store[e].content.value)
  }

  ghost function StoreGraph(store: Store): Graph<Id> {
    var known := set e | e in store && Readable(store, store[e].changeHash) :: store[e].changeHash;
    map cid | cid in known && Readable(store, cid) :: Sorted(Fetched(store, cid).change.dependencies)
  }

  ghost function Sizes(store: Store, ids: seq<Id>): nat {
    if ids == [] then 0
    else Sizes(store, ids[..|ids| - 1]) +
         if Readable(store, ids[|ids| - 1]) then Fetched(store, ids[|ids| - 1]).change.size else 0
  }

  ghost predicate AllReadable(store: Store, order: seq<Id>) {
    forall x :: x in order ==> Readable(store, x)
  }

  ghost function FetchedAll(store: Store, order: seq<Id>): seq<Dependency>
    requires AllReadable(store, order)
  {
    seq(|order|, i requires 0 <= i < |order| => Fetched(store, order[i]))
  }

  lemma {:induction false} ReadableIsKnown(store: Store, cid: Id)
    ensures cid in StoreGraph(store) <==> Readable(store, cid)
    ensures Readable(store, cid) ==>
              && Fetched(store, cid).change.inner == cid && Fetched(store, cid).envelope in store
              && store[Fetched(store, cid).envelope].changeHash == cid
              && StoreGraph(store)[cid] == Sorted(Fetched(store, cid).change.dependencies)
  {
  }

  lemma {:induction false} SizesGrow(store: Store, a: seq<Id>, b: seq<Id>)
    requires a <= b
    ensures Sizes(store, a) <= Sizes(store, b)
    decreases |b|
  {
    if |a| < |b| {
      SizesGrow(store, a, b[..|b| - 1]);
    } else {
      assert a == b;
    }
  }

  lemma {:induction false} Pushed(store: Store, s: seq<Id>, x: Id)
    requires Readable(store, x)
    ensures Sizes(store, s + [x]) == Sizes(store, s) + Fetched(store, x).change.size
    ensures AllReadable(store, s) ==>
              AllReadable(store, s + [x]) && FetchedAll(store, s + [x]) == FetchedAll(store, s) + [Fetched(store, x)]
  {
  }

  /** Success means what the shared walk and the byte budget say; see `CollectDependencies`. */
  ghost predicate Collects(c: Change, store: Store, closure: seq<Dependency>) {
    var w := Walk(StoreGraph(store), MAX_CLOSURE, [], [], Sorted(c.dependencies));
    && w.Done? && AllReadable(store, w.order) && closure == FetchedAll(store, w.order)
    && c.size + Sizes(store, w.order) <= MAX_CLOSURE_BYTES
  }

  /** The cases in which a visit ends without looking at parents. */
  lemma {:induction false} VisitEnds(store: Store, stack: seq<Id>, order: seq<Id>, cid: Id)
    requires AllReadable(store, stack) && AllReadable(store, order) && Apart(stack, order)
    ensures var w := Walk(StoreGraph(store), MAX_CLOSURE, stack, order, [cid]);
            && (cid in stack ==> w == Cycle(cid))
            && (cid in order ==> w == Done(order))
            && (!Readable(store, cid) ==> w == Missing(cid))
            && (Readable(store, cid) && cid !in stack + order && |stack| + |order| >= MAX_CLOSURE ==> w == OverLimit)
  {
    hide StoreGraph;
    ReadableIsKnown(store, cid);
    assert [cid][1..] == [];
  }

  lemma {:induction false} RowIsFetched(store: Store, cid: Id, e: Id)
    requires e in store && RowsFor(store, cid) == {e} && store[e].content.Some? && store[e].content.value.inner == cid
    ensures Readable(store, cid) && Fetched(store, cid) == Dependency(e, store[e].content.value)
  {
  }

  /** More distinct readable rows than fit the closure or its bytes, whatever else there is. */
  ghost predicate TooMuch(c: Change, store: Store, s: seq<Id>) {
    Distinct(s) && AllReadable(store, s) && (|s| >= MAX_CLOSURE || c.size + Sizes(store, s) > MAX_CLOSURE_BYTES)
  }

  /** What a refusal to extract says of the store; cycles and gaps are facts about the walk. */
  ghost predicate StoreFault(c: Change, store: Store, code: Code) {
    match code
    case DependencyCycle => true
    case DependenciesMissing => true
    case DependencyEquivocation => exists cid :: |RowsFor(store, cid)| > 1
    case StoreVerificationFailed =>
      exists e :: e in store && (store[e].content.None? || store[e].content.value.inner != store[e].changeHash)
    case ResourceLimit => exists s :: TooMuch(c, store, s)
    case _ => false
  }

  lemma {:induction false} SizesJoin(store: Store, a: seq<Id>, b: seq<Id>)
    ensures Sizes(store, a + b) == Sizes(store, a) + Sizes(store, b)
  {
    if b == [] {
      assert a + b == a;
    } else {
      var m := |b| - 1;
      SizesJoin(store, a, b[..m]);
      assert (a + b)[..|a| + m] == a + b[..m];
    }
  }

  lemma {:induction false} FaultsOfStore(c: Change, store: Store)
    ensures StoreFault(c, store, DependencyCycle) && StoreFault(c, store, DependenciesMissing) && !StoreFault(c, store, OwnerStateChanged)
  {
  }

  lemma {:induction false} JoinApart(a: seq<Id>, b: seq<Id>)
    requires Apart(a, b)
    ensures Distinct(a + b) && forall x :: x in a + b <==> x in a || x in b
  {
    var s := a + b;
    forall i, j | 0 <= i < j < |s|
      ensures s[i] != s[j]
    {
      if i < |a| <= j {
        assert s[i] in a && s[j] == b[j - |a|] && s[j] in b;
      }
    }
  }

  /** Reaching either limit at the next hash. */
  lemma {:induction false} LimitIsReal(c: Change, store: Store, stack: seq<Id>, order: seq<Id>, cid: Id)
    requires AllReadable(store, stack) && AllReadable(store, order) && Apart(stack, order) && cid !in stack + order
    ensures |stack| + |order| >= MAX_CLOSURE ==> StoreFault(c, store, ResourceLimit)
    ensures Readable(store, cid) && c.size + Sizes(store, stack) + Sizes(store, order) + Fetched(store, cid).change.size > MAX_CLOSURE_BYTES ==>
              StoreFault(c, store, ResourceLimit)
  {
    hide Readable;
    hide Fetched;
    var s := stack + order;
    SizesJoin(store, stack, order);
    JoinApart(stack, order);
    assert AllReadable(store, s) by {
      forall x | x in s
        ensures x in stack || x in order
      {
      }
    }
    if |s| >= MAX_CLOSURE {
      assert TooMuch(c, store, s);
    }
    if Readable(store, cid) {
      Pushed(store, s, cid);
      assert Distinct(s + [cid]);
      if c.size + Sizes(store, s + [cid]) > MAX_CLOSURE_BYTES {
        assert TooMuch(c, store, s + [cid]);
      }
    }
  }

  class Collector {
    const store: Store
    const candidate: Change
    var found: map<Id, Dependency>
    var visiting: set<Id>
    var ordered: seq<Dependency>
    var total: nat
    ghost var order: seq<Id>

    constructor (c: Change, store: Store)
      requires c.size <= MAX_CHANGE
      ensures this.store == store && candidate == c && Tracks([]) && order == []
    {
      this.store, candidate := store, c;
      found, visiting, ordered, total, order := map[], {}, [], c.size, [];
    }

    ghost predicate Tracks(stack: seq<Id>)
      reads this
    {
      && visiting == Elems(stack) && found.Keys == Elems(order) && Apart(stack, order)
      && AllReadable(store, stack) && AllReadable(store, order) && ordered == FetchedAll(store, order)
      && total == candidate.size + Sizes(store, stack) + Sizes(store, order) <= MAX_CLOSURE_BYTES
    }

    ghost function Rest(stack: seq<Id>, done: seq<Id>, todo: seq<Id>): Outcome<Id> {
      Walk(StoreGraph(store), MAX_CLOSURE, stack, done, todo)
    }

    /** What failing with `code` says about the walk `w` from the same point. */
    ghost predicate Explains(code: Code, stack: seq<Id>, w: Outcome<Id>) {
      && (w.Done? ==> candidate.size + Sizes(store, stack) + Sizes(store, w.order) > MAX_CLOSURE_BYTES)
      && StoreFault(candidate, store, code)
      && (code == DependencyCycle ==> w.Cycle?)
      && (code == DependenciesMissing ==> w.Missing? && RowsFor(store, w.at) == {})
    }

    method Lookup(cid: Id) returns (failure: Option<Code>, dep: Option<Dependency>)
      ensures failure.None? ==> Readable(store, cid) && dep == Some(Fetched(store, cid))
      ensures failure.Some? ==> !Readable(store, cid) && failure.value != DependencyCycle
      ensures failure == Some(DependenciesMissing) ==> RowsFor(store, cid) == {}
      ensures failure.Some? ==> StoreFault(candidate, store, failure.value)
    {
      var rows := RowsFor(store, cid);
      if rows == {} { return Some(DependenciesMissing), None; }
      if |rows| != 1 { return Some(DependencyEquivocation), None; }
      var e :| e in rows;
      assert rows == {e} by {
        assert |rows - {e}| == 0;
      }
      if store[e].content.None? { return Some(StoreVerificationFailed), None; }
      var item := store[e].content.value;
      if item.inner != cid { return Some(StoreVerificationFailed), None; }
      RowIsFetched(store, cid, e);
      return None, Some(Dependency(e, item));
    }

    method Visit(cid: Id, ghost stack: seq<Id>) returns (failure: Option<Code>)
      requires Tracks(stack)
      modifies this
      ensures var w := Rest(stack, old(order), [cid]);
              && (failure.None? ==> w == Done(order) && Tracks(stack))
              && (failure.Some? ==> Explains(failure.value, stack, w))
      decreases StoreGraph(store).Keys - Elems(stack), 1
    {
      hide Walk;
      hide StoreGraph;
      hide Sorted;
      hide Readable;
      hide Fetched;
      hide StoreFault;
      VisitEnds(store, stack, order, cid);
      FaultsOfStore(candidate, store);
      if cid in visiting { return Some(DependencyCycle); }
      if cid in found { return None; }
      LimitIsReal(candidate, store, stack, order, cid);
      DistinctSize(stack);
      DistinctSize(order);
      assert |found| == |found.Keys|;
      if |found| + |visiting| >= MAX_CLOSURE { return Some(ResourceLimit); }
      var fault, dep := Lookup(cid);
      if fault.Some? { return fault; }
      ReadableIsKnown(store, cid);
      WalkOpens(StoreGraph(store), MAX_CLOSURE, stack, order, cid);
      var item := dep.value.change;
      if total + item.size > MAX_CLOSURE_BYTES {
        OverBudget(cid, stack, order);
        return Some(ResourceLimit);
      }
      failure := Open(cid, dep.value, stack);
    }

    lemma {:induction false} OverBudget(cid: Id, stack: seq<Id>, done: seq<Id>)
      requires Readable(store, cid)
      requires var w := Rest(stack, done, [cid]);
               var r := Rest(stack + [cid], done, Sorted(Fetched(store, cid).change.dependencies));
               w == if r.Done? then Done(r.order + [cid]) else r
      requires candidate.size + Sizes(store, stack) + Sizes(store, done) + Fetched(store, cid).change.size > MAX_CLOSURE_BYTES
      requires StoreFault(candidate, store, ResourceLimit)
      ensures Explains(ResourceLimit, stack, Rest(stack, done, [cid]))
    {
      hide Walk;
      hide StoreGraph;
      hide Sorted;
      var r := Rest(stack + [cid], done, Sorted(Fetched(store, cid).change.dependencies));
      if r.Done? {
        SizesGrow(store, done, r.order);
        assert (r.order + [cid])[..|r.order|] == r.order;
      }
    }

    /** The part of `visit` between marking a key as open and appending it. */
    method Open(cid: Id, dep: Dependency, ghost stack: seq<Id>) returns (failure: Option<Code>)
      requires Tracks(stack) && cid !in stack && cid !in order && Readable(store, cid) && dep == Fetched(store, cid)
      requires total + dep.change.size <= MAX_CLOSURE_BYTES
      requires var w := Rest(stack, order, [cid]);
               var r := Rest(stack + [cid], order, Sorted(dep.change.dependencies));
               w == if r.Done? then Done(r.order + [cid]) else r
      modifies this
      ensures var w := Rest(stack, old(order), [cid]);
              && (failure.None? ==> w == Done(order) && Tracks(stack))
              && (failure.Some? ==> Explains(failure.value, stack, w))
      decreases StoreGraph(store).Keys - Elems(stack), 0
    {
      ReadableIsKnown(store, cid);
      hide Walk;
      hide StoreGraph;
      hide Sorted;
      hide Readable;
      hide Fetched;
      hide Sizes;
      hide FetchedAll;
      hide AllReadable;
      hide Apart;
      ApartMoves(stack, order, cid);
      Pushed(store, stack, cid);
      total := total + dep.change.size;
      visiting := visiting + {cid};
      assert cid in StoreGraph(store).Keys - Elems(stack) && cid !in StoreGraph(store).Keys - Elems(stack + [cid]);
      ghost var r := Rest(stack + [cid], order, Sorted(dep.change.dependencies));
      if r.Done? {
        Pushed(store, r.order, cid);
      }
      failure := VisitAll(Sorted(dep.change.dependencies), stack + [cid]);
      if failure.None? {
        ApartMoves(stack, order, cid);
        visiting := visiting - {cid};
        found := found[cid := dep];
        ordered := ordered + [dep];
        order := order + [cid];
        assert visiting == Elems(stack);
        assert found.Keys == Elems(order);
      }
    }

    method VisitAll(todo: seq<Id>, ghost stack: seq<Id>) returns (failure: Option<Code>)
      requires Tracks(stack)
      modifies this
      ensures var w := Rest(stack, old(order), todo);
              && (failure.None? ==> w == Done(order) && Tracks(stack))
              && (failure.Some? ==> Explains(failure.value, stack, w))
      decreases StoreGraph(store).Keys - Elems(stack), 2 + |todo|
    {
      assert Rest(stack, order, []) == Done(order);
      hide StoreGraph;
      for i := 0 to |todo|
        invariant Tracks(stack)
        invariant Rest(stack, old(order), todo) == Rest(stack, order, todo[i..])
      {
        WalkSplits(StoreGraph(store), MAX_CLOSURE, stack, order, todo[i], todo[i + 1..]);
        assert todo[i..] == [todo[i]] + todo[i + 1..];
        ghost var w := Rest(stack, order, [todo[i]]);
        failure := Visit(todo[i], stack);
        if failure.Some? {
          if w.Done? && Rest(stack, old(order), todo).Done? {
            SizesGrow(store, w.order, Rest(stack, old(order), todo).order);
          }
          return;
        }
      }
      failure := None;
    }
  }

  /**
   Extraction succeeds exactly when the shared walk over the readable rows does, within
   the closure limit and the byte budget; a reported cycle is one the walk meets, and a
   reported gap is a hash that no row carries.
   */
  method CollectDependencies(c: Change, store: Store, audited: bool, steady: bool) returns (r: Result<seq<Dependency>, Code>)
    requires c.size <= MAX_CHANGE
    ensures r.Ok? ==> audited && steady && Collects(c, store, r.value)
    ensures audited && steady && (exists closure :: Collects(c, store, closure)) ==> r.Ok?
    ensures r == Err(DependencyCycle) ==> Walk(StoreGraph(store), MAX_CLOSURE, [], [], Sorted(c.dependencies)).Cycle?
    ensures r == Err(DependenciesMissing) ==>
              var w := Walk(StoreGraph(store), MAX_CLOSURE, [], [], Sorted(c.dependencies));
              w.Missing? && RowsFor(store, w.at) == {}
    ensures r == Err(OwnerStateChanged) <==> audited && !steady && exists closure :: Collects(c, store, closure)
    ensures r.Err? && r.error != OwnerStateChanged ==> (r.error == StoreVerificationFailed && !audited) || StoreFault(c, store, r.error)
  {
    hide StoreFault;
    hide Walk;
    hide StoreGraph;
    hide Sorted;
    if !audited { return Err(StoreVerificationFailed); }
    var collector := new Collector(c, store);
    var failure := collector.VisitAll(Sorted(c.dependencies), []);
    FaultsOfStore(c, store);
    if failure.Some? { return Err(failure.value); }
    assert Collects(c, store, collector.ordered);
    if !steady { return Err(OwnerStateChanged); }
    r := Ok(collector.ordered);
  }

  // ---------------------------------------------------------------- agreement with the checker

  lemma {:induction false} FetchedTotal(store: Store, order: seq<Id>)
    requires AllReadable(store, order)
    ensures Total(FetchedAll(store, order)) == Sizes(store, order)
  {
    if order != [] {
      var n := |order| - 1;
      FetchedTotal(store, order[..n]);
      Pushed(store, order[..n], order[n]);
      assert order == order[..n] + [order[n]];
      assert FetchedAll(store, order)[..n] == FetchedAll(store, order[..n]);
    }
  }

  lemma {:induction false} FetchedNames(store: Store, order: seq<Id>)
    requires AllReadable(store, order) && Distinct(order)
    ensures DistinctNames(FetchedAll(store, order))
    ensures forall i :: 0 <= i < |order| ==> FetchedAll(store, order)[i].change.inner == order[i]
  {
  }

  /** The checker's graph over an extracted closure is the store's graph on those hashes. */
  lemma {:induction false} FetchedGraph(store: Store, order: seq<Id>)
    requires AllReadable(store, order) && Distinct(order)
    ensures var nodes := NodesOf(FetchedAll(store, order));
            && nodes.Keys == Elems(order)
            && forall x :: x in order ==> x in StoreGraph(store) && Parents(nodes)[x] == StoreGraph(store)[x]
  {
    var closure := FetchedAll(store, order);
    FetchedNames(store, order);
    NodesOfContents(closure);
    hide NodesOf;
    hide StoreGraph;
    hide Sorted;
    var nodes := NodesOf(closure);
    forall x | x in order
      ensures x in nodes && x in StoreGraph(store) && Parents(nodes)[x] == StoreGraph(store)[x]
    {
      var i :| 0 <= i < |order| && order[i] == x;
      assert closure[i] in closure;
      ReadableIsKnown(store, x);
    }
    forall k | k in nodes
      ensures k in Elems(order)
    {
      var i :| 0 <= i < |closure| && closure[i] == nodes[k];
      assert order[i] == k;
    }
  }

  /** The checker's own walk over an extracted closure finishes in the extracted order. */
  lemma {:induction false} ExtractedClosureWalks(c: Change, store: Store, closure: seq<Dependency>) returns (order: seq<Id>)
    requires Collects(c, store, closure)
    ensures DistinctNames(closure) && |closure| <= MAX_CLOSURE && c.size + Total(closure) <= MAX_CLOSURE_BYTES
    ensures |order| == |closure|
    ensures var nodes := NodesOf(closure);
            && Walk(Parents(nodes), |nodes|, [], [], Sorted(c.dependencies)) == Done(order)
            && Elems(order) == nodes.Keys
            && forall i :: 0 <= i < |order| ==> order[i] in nodes && nodes[order[i]] == closure[i]
  {
    hide Walk;
    hide Sorted;
    hide NodesOf;
    hide Total;
    hide StoreGraph;
    hide Sizes;
    var g := StoreGraph(store);
    order := Walk(g, MAX_CLOSURE, [], [], Sorted(c.dependencies)).order;
    WalkTopological(g, MAX_CLOSURE, [], [], Sorted(c.dependencies));
    FetchedTotal(store, order);
    FetchedNames(store, order);
    FetchedGraph(store, order);
    var nodes := NodesOf(closure);
    DistinctSize(order);
    assert |nodes| == |nodes.Keys|;
    WalkAgrees(g, MAX_CLOSURE, Parents(nodes), |nodes|, [], [], Sorted(c.dependencies));
    NodesOfContents(closure);
    assert forall i :: 0 <= i < |order| ==> closure[i] in closure;
  }

  /**
   The checker and the extractor agree: a closure extracted from the store passes the
   missing, cycle, extraneous, equivocation and budget checks of `core_request`, which can
   then refuse it only for its context, its presence, its predecessors or its author slots;
   and when it accepts, it emits the extracted order.
   */
  lemma {:induction false} ExtractedClosureAgrees(c: Change, store: Store, closure: seq<Dependency>)
    requires Collects(c, store, closure)
    ensures var r := CoreRequest(c, closure);
            r.Ok? || r.error in {DependencyScopeMismatch, ChangeAlreadyPresent, PreviousMismatch, ActorEquivocation}
    ensures CoreRequest(c, closure).Ok? ==>
              && |CoreRequest(c, closure).value.closure| == |closure|
              && forall i :: 0 <= i < |closure| ==> CoreRequest(c, closure).value.closure[i] == closure[i].change
  {
    hide Walk;
    hide Sorted;
    hide NodesOf;
    hide Total;
    hide Collects;
    hide PredecessorPresent;
    hide OneChangePerSlot;
    hide FirstFault;
    var order := ExtractedClosureWalks(c, store, closure);
    FirstFaultIsContext(c, closure, 0);
  }
}
