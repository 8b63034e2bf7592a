/** `_collect` of `product/wp04/application.py`: from signed bytes to a request and its records. */
module Collect {
  import opened Ordering
  import opened ClosureWalk
  import opened Contracts
  import opened Admission
  import opened Selection
  import opened CausalCheck

  /** Encrypted envelope bytes together with their certificate. */
  type Raw = nat

  /**
   The authority state as far as collecting consults it: opening and verifying stored bytes,
   and the additional check of current authorisation for bytes not applied before.
   */
  datatype Authority = Authority(open: (Id, Raw) -> Option<Change>, refuses: (Id, Raw) -> bool)

  /** Changes in causal order; `expectedHeads` is a sorted list, so a set. */
  datatype ApplyRequest = ApplyRequest(changes: seq<Change>, expectedHeads: set<Id>)

  datatype InputRecord = InputRecord(inner: Id, raw: Raw)

  /** The records are listed by ascending envelope, one per envelope, so they are a map. */
  datatype Collected = Collected(request: ApplyRequest, records: map<Id, InputRecord>)

  // ---------------------------------------------------------------- specification

  /** `p` is what the bytes open to: no inner hash or author slot is claimed by two envelopes. */
  ghost predicate OpensTo(auth: Authority, raw: map<Id, Raw>, p: Pool) {
    && ValidPool(p) && p.changes.Keys == raw.Keys
    && forall e :: e in raw ==> auth.open(e, raw[e]) == Some(p.changes[e])
  }

  ghost predicate Sound(auth: Authority, raw: map<Id, Raw>) {
    exists p :: OpensTo(auth, raw, p)
  }

  ghost function Opened(auth: Authority, raw: map<Id, Raw>): (p: Pool)
    requires Sound(auth, raw)
    ensures OpensTo(auth, raw, p)
  {
    var p :| OpensTo(auth, raw, p);
    p
  }

  lemma {:induction false} OpenedUnique(auth: Authority, raw: map<Id, Raw>, p: Pool)
    requires OpensTo(auth, raw, p)
    ensures Sound(auth, raw) && p == Opened(auth, raw)
  {
    var q := Opened(auth, raw);
    assert p.changes == q.changes;
    forall k | k in p.inners
      ensures k in q.inners && q.inners[k] == p.inners[k]
    {
      assert p.inners[k] in q.changes;
    }
    forall k | k in q.inners
      ensures k in p.inners
    {
      assert q.inners[k] in p.changes;
    }
    assert p.inners == q.inners;
  }

  function KeyId(k: Key): Id {
    if k.Envelope? then k.id else k.inner
  }

  ghost function Order(p: Pool, roots: set<Id>): seq<Id> {
    var w := Select(p, roots);
    if w.Done? then seq(|w.order|, i requires 0 <= i < |w.order| => KeyId(w.order[i])) else []
  }

  function RequestOf(p: Pool, ids: seq<Id>): ApplyRequest
    requires forall e :: e in ids ==> e in p.changes
  {
    ApplyRequest(seq(|ids|, i requires 0 <= i < |ids| => p.changes[ids[i]]), Heads(p, ids))
  }

  function RecordsOf(p: Pool, raw: map<Id, Raw>, ids: seq<Id>): map<Id, InputRecord>
    requires forall e :: e in ids ==> e in p.changes && e in raw
  {
    map e | e in ids :: InputRecord(p.changes[e].inner, raw[e])
  }

  ghost predicate Collectable(auth: Authority, external: map<Id, Raw>, inputs: map<Id, Raw>, targets: set<Id>) {
    var raw := external + inputs;
    && (forall e :: e in external && e in inputs ==> external[e] == inputs[e])
    && !(targets <= inputs.Keys)
    && Sound(auth, raw)
    && var p := Opened(auth, raw);
       var ids := Order(p, targets + inputs.Keys);
       && Selected(p, targets + inputs.Keys, ids)
       && Total(SelectedDependencies(p, ids)) <= MAX_CLOSURE_BYTES
       && (forall e :: e in ids ==> CausallySound(p, p.changes[e]) && (e in inputs || !auth.refuses(e, raw[e])))
  }

  ghost function Gathered(auth: Authority, external: map<Id, Raw>, inputs: map<Id, Raw>, targets: set<Id>): Collected
    requires Collectable(auth, external, inputs, targets)
  {
    var raw := external + inputs;
    var p := Opened(auth, raw);
    var ids := Order(p, targets + inputs.Keys);
    Collected(RequestOf(p, ids), RecordsOf(p, raw, ids))
  }

  // ---------------------------------------------------------------- what a request is, whoever builds it

  /** Each change once, each after everything it depends on; the heads are those nothing in the request depends on. */
  ghost predicate CausalRequest(r: ApplyRequest) {
    && (forall i, j :: 0 <= i < j < |r.changes| ==> r.changes[i].inner != r.changes[j].inner)
    && (forall i, k :: 0 <= i < |r.changes| && k in r.changes[i].dependencies ==> HasInner(r.changes[..i], k))
  }

  ghost predicate HeadsOfRequest(r: ApplyRequest) {
    forall k :: k in r.expectedHeads <==>
      HasInner(r.changes, k) && forall i :: 0 <= i < |r.changes| ==> k !in r.changes[i].dependencies
  }

  /** The changes are what the given bytes open to, one for one. */
  ghost predicate Carries(auth: Authority, raw: map<Id, Raw>, changes: seq<Change>) {
    && |changes| == |raw|
    && (forall e :: e in raw ==> auth.open(e, raw[e]).Some? && auth.open(e, raw[e]).value in changes)
    && (forall i :: 0 <= i < |changes| ==> exists e :: e in raw && auth.open(e, raw[e]) == Some(changes[i]))
  }

  lemma {:induction false} RequestIsCausal(p: Pool, roots: set<Id>, ids: seq<Id>)
    requires Selected(p, roots, ids)
    ensures CausalRequest(RequestOf(p, ids)) && HeadsOfRequest(RequestOf(p, ids))
  {
    hide Select;
    var changes := RequestOf(p, ids).changes;
    assert forall i :: 0 <= i < |ids| ==> changes[i] == p.changes[ids[i]] && ids[i] in ids;
    forall i, k | 0 <= i < |changes| && k in changes[i].dependencies
      ensures HasInner(changes[..i], k)
    {
      assert p.inners[k] in ids[..i];
      var j :| 0 <= j < i && ids[j] == p.inners[k];
      assert changes[..i][j].inner == k;
    }
    forall k
      ensures k in Hashes(p, ids) <==> HasInner(changes, k)
    {
      if k in Hashes(p, ids) {
        var e :| e in ids && p.changes[e].inner == k;
        var j :| 0 <= j < |ids| && ids[j] == e;
        assert changes[j].inner == k;
      }
    }
    forall k
      ensures k in DependedOn(p, ids) <==> exists i :: 0 <= i < |changes| && k in changes[i].dependencies
    {
      if k in DependedOn(p, ids) {
        var e :| e in ids && k in p.changes[e].dependencies;
        var j :| 0 <= j < |ids| && ids[j] == e;
        assert k in changes[j].dependencies;
      }
    }
  }

  lemma {:induction false} RequestCarries(auth: Authority, raw: map<Id, Raw>, p: Pool, ids: seq<Id>)
    requires Distinct(ids) && Elems(ids) == raw.Keys && forall e :: e in ids ==> e in p.changes && auth.open(e, raw[e]) == Some(p.changes[e])
    ensures Carries(auth, raw, RequestOf(p, ids).changes)
  {
    DistinctSize(ids);
    var changes := RequestOf(p, ids).changes;
    assert |raw| == |raw.Keys|;
    forall e | e in raw
      ensures p.changes[e] in changes
    {
      assert e in Elems(ids);
      var j :| 0 <= j < |ids| && ids[j] == e;
      assert changes[j] == p.changes[e];
    }
    forall i | 0 <= i < |changes|
      ensures exists e :: e in raw && auth.open(e, raw[e]) == Some(changes[i])
    {
      assert ids[i] in ids && ids[i] in Elems(ids);
    }
  }

  /** The stored bytes of a collected request's records. */
  function RawOf(records: map<Id, InputRecord>): map<Id, Raw> {
    map e | e in records :: records[e].raw
  }

  /**
   What is collected: a causal request with its maximal hashes as heads, carried by exactly
   the records, which hold the targets and all inputs applied before, and each of which
   names the inner hash that its bytes open to.
   */
  ghost predicate Delivers(auth: Authority, raw: map<Id, Raw>, roots: set<Id>, c: Collected) {
    && CausalRequest(c.request) && HeadsOfRequest(c.request) && Carries(auth, RawOf(c.records), c.request.changes)
    && roots <= c.records.Keys
    && forall e :: e in c.records ==>
         && e in raw && c.records[e].raw == raw[e]
         && auth.open(e, raw[e]).Some? && c.records[e].inner == auth.open(e, raw[e]).value.inner
  }

  lemma {:induction false} GatheredDelivers(auth: Authority, external: map<Id, Raw>, inputs: map<Id, Raw>, targets: set<Id>)
    requires Collectable(auth, external, inputs, targets)
    ensures Delivers(auth, external + inputs, targets + inputs.Keys, Gathered(auth, external, inputs, targets))
  {
    var raw := external + inputs;
    var p := Opened(auth, raw);
    var ids := Order(p, targets + inputs.Keys);
    hide Select;
    hide Order;
    hide ParentsEarlier;
    hide ValidPool;
    hide CausallySound;
    hide Total;
    hide RequestOf;
    hide RecordsOf;
    hide Sound;
    hide Delivers;
    SelectionDelivers(auth, raw, p, targets + inputs.Keys, ids);
  }

  lemma {:induction false} SelectionDelivers(auth: Authority, raw: map<Id, Raw>, p: Pool, roots: set<Id>, ids: seq<Id>)
    requires OpensTo(auth, raw, p) && Selected(p, roots, ids)
    ensures forall e :: e in ids ==> e in raw
    ensures Delivers(auth, raw, roots, Collected(RequestOf(p, ids), RecordsOf(p, raw, ids)))
  {
    hide Selected;
    hide ValidPool;
    hide CausalRequest;
    hide HeadsOfRequest;
    hide RequestOf;
    hide Carries;
    hide RecordsOf;
    hide RawOf;
    RequestIsCausal(p, roots, ids);
    SelectionIds(p, roots, ids);
    RecordsAre(auth, raw, p, ids);
    RequestCarries(auth, RawOf(RecordsOf(p, raw, ids)), p, ids);
  }

  lemma {:induction false} SelectionIds(p: Pool, roots: set<Id>, ids: seq<Id>)
    requires Selected(p, roots, ids)
    ensures Distinct(ids) && (forall e :: e in ids ==> e in p.changes) && roots <= Elems(ids)
  {
    hide Select;
  }

  lemma {:induction false} RecordsAre(auth: Authority, raw: map<Id, Raw>, p: Pool, ids: seq<Id>)
    requires OpensTo(auth, raw, p) && forall e :: e in ids ==> e in p.changes && e in raw
    ensures var records := RecordsOf(p, raw, ids);
            && records.Keys == RawOf(records).Keys == Elems(ids)
            && forall e :: e in records ==>
                 && records[e].raw == raw[e] == RawOf(records)[e]
                 && auth.open(e, raw[e]) == Some(p.changes[e]) && records[e].inner == p.changes[e].inner
  {
    hide ValidPool;
  }

  // ---------------------------------------------------------------- the loops

  method MergeInputs(external: map<Id, Raw>, inputs: map<Id, Raw>) returns (pool: Option<map<Id, Raw>>)
    ensures pool.Some? <==> forall e :: e in external && e in inputs ==> external[e] == inputs[e]
    ensures pool.Some? ==> pool.value == external + inputs
  {
    var merged, rest := external, inputs.Keys;
    while rest != {}
      invariant rest <= inputs.Keys
      invariant merged.Keys == external.Keys + (inputs.Keys - rest)
      invariant forall e :: e in merged ==> merged[e] == if e in inputs && e !in rest then inputs[e] else external[e]
      invariant forall e :: e in external && e in inputs && e !in rest ==> external[e] == inputs[e]
    {
      var e :| e in rest;
      if e in merged && merged[e] != inputs[e] { return None; }
      merged, rest := merged[e := inputs[e]], rest - {e};
    }
    pool := Some(merged);
  }

  /** The state of the validation loop after the envelopes `seen`. */
  ghost predicate Indexed(auth: Authority, raw: map<Id, Raw>, seen: set<Id>, p: Pool, slots: map<(Id, nat), Id>) {
    && ValidPool(p) && p.changes.Keys == seen <= raw.Keys
    && (forall e :: e in seen ==> auth.open(e, raw[e]) == Some(p.changes[e]))
    && (forall e :: e in seen ==> (p.changes[e].actor, p.changes[e].sequence) in slots)
    && (forall s :: s in slots ==> slots[s] in seen && s == (p.changes[slots[s]].actor, p.changes[slots[s]].sequence))
  }

  lemma {:induction false} Unsound(auth: Authority, raw: map<Id, Raw>, a: Id, b: Id)
    requires a in raw && b in raw && a != b && auth.open(a, raw[a]).Some? && auth.open(b, raw[b]).Some?
    requires var x, y := auth.open(a, raw[a]).value, auth.open(b, raw[b]).value; x.inner == y.inner || SameSlot(x, y)
    ensures !Sound(auth, raw)
  {
  }

  ghost predicate BothOpen(auth: Authority, raw: map<Id, Raw>, a: Id, b: Id) {
    a in raw && b in raw && a != b && auth.open(a, raw[a]).Some? && auth.open(b, raw[b]).Some?
  }

  /** What is wrong with bytes that are refused with this code. */
  ghost predicate PoolFault(auth: Authority, raw: map<Id, Raw>, code: Code) {
    match code
    case InputVerificationFailed => exists e :: e in raw && auth.open(e, raw[e]).None?
    case InputEquivocation =>
      exists a, b :: BothOpen(auth, raw, a, b) && auth.open(a, raw[a]).value.inner == auth.open(b, raw[b]).value.inner
    case ActorEquivocation =>
      exists a, b :: BothOpen(auth, raw, a, b) && SameSlot(auth.open(a, raw[a]).value, auth.open(b, raw[b]).value)
    case _ => false
  }

  lemma {:induction false} ClaimedTwice(auth: Authority, raw: map<Id, Raw>, seen: set<Id>, p: Pool, slots: map<(Id, nat), Id>, e: Id, ch: Change)
    requires Indexed(auth, raw, seen, p, slots) && e !in seen && e in raw && auth.open(e, raw[e]) == Some(ch)
    ensures ch.inner in p.inners ==> PoolFault(auth, raw, InputEquivocation)
    ensures (ch.actor, ch.sequence) in slots ==> PoolFault(auth, raw, ActorEquivocation)
  {
    if ch.inner in p.inners {
      assert BothOpen(auth, raw, p.inners[ch.inner], e);
    }
    if (ch.actor, ch.sequence) in slots {
      var other := slots[(ch.actor, ch.sequence)];
      assert BothOpen(auth, raw, other, e) && SameSlot(auth.open(other, raw[other]).value, ch);
    }
  }

  lemma {:induction false} IndexedStep(auth: Authority, raw: map<Id, Raw>, seen: set<Id>, p: Pool, slots: map<(Id, nat), Id>, e: Id, ch: Change)
    requires Indexed(auth, raw, seen, p, slots) && e !in seen && e in raw && auth.open(e, raw[e]) == Some(ch)
    ensures ch.inner in p.inners || (ch.actor, ch.sequence) in slots ==> !Sound(auth, raw)
    ensures ch.inner !in p.inners && (ch.actor, ch.sequence) !in slots ==>
              Indexed(auth, raw, seen + {e}, Pool(p.changes[e := ch], p.inners[ch.inner := e]), slots[(ch.actor, ch.sequence) := e])
  {
    if ch.inner in p.inners {
      Unsound(auth, raw, p.inners[ch.inner], e);
    } else if (ch.actor, ch.sequence) in slots {
      Unsound(auth, raw, slots[(ch.actor, ch.sequence)], e);
    }
  }

  lemma {:induction false} Unopened(auth: Authority, raw: map<Id, Raw>, e: Id)
    requires e in raw && auth.open(e, raw[e]).None?
    ensures PoolFault(auth, raw, InputVerificationFailed)
  {
  }

  method OpenPool(auth: Authority, raw: map<Id, Raw>) returns (r: Result<Pool, Code>)
    ensures r.Ok? <==> Sound(auth, raw)
    ensures r.Ok? ==> r.value == Opened(auth, raw)
    ensures r.Err? ==> PoolFault(auth, raw, r.error)
  {
    hide PoolFault;
    var p, slots: map<(Id, nat), Id>, rest := Pool(map[], map[]), map[], raw.Keys;
    while rest != {}
      invariant rest <= raw.Keys && Indexed(auth, raw, raw.Keys - rest, p, slots)
    {
      var e :| e in rest;
      var opening := auth.open(e, raw[e]);
      if opening.None? {
        assert PoolFault(auth, raw, InputVerificationFailed) by { Unopened(auth, raw, e); }
        return Err(InputVerificationFailed);
      }
      var ch := opening.value;
      ClaimedTwice(auth, raw, raw.Keys - rest, p, slots, e, ch);
      IndexedStep(auth, raw, raw.Keys - rest, p, slots, e, ch);
      hide Indexed;
      hide Sound;
      if ch.inner in p.inners { return Err(InputEquivocation); }
      if (ch.actor, ch.sequence) in slots { return Err(ActorEquivocation); }
      p := Pool(p.changes[e := ch], p.inners[ch.inner := e]);
      assert raw.Keys - (rest - {e}) == raw.Keys - rest + {e};
      slots, rest := slots[(ch.actor, ch.sequence) := e], rest - {e};
    }
    OpenedUnique(auth, raw, p);
    r := Ok(p);
  }

  /** The nested `ancestor` procedure: add a change and everything below it. */
  method AddAncestors(g: Graph<Id>, cid: Id, closure: set<Id>, ghost upper: set<Id>) returns (r: set<Id>)
    requires Closed(g, upper) && upper <= g.Keys && closure <= upper && cid in upper
    ensures closure + {cid} <= r <= upper
    ensures forall x, c :: x in r - closure && c in g[x] ==> c in r
    decreases upper - closure
  {
    if cid in closure { return closure; }
    r := closure + {cid};
    for i := 0 to |g[cid]|
      invariant closure + {cid} <= r <= upper
      invariant forall j :: 0 <= j < i ==> g[cid][j] in r
      invariant forall x, c :: x in r - closure - {cid} && c in g[x] ==> c in r
    {
      r := AddAncestors(g, g[cid][i], r, upper);
    }
  }

  method ClosureOf(p: Pool, ch: Change, ghost roots: set<Id>, ghost ids: seq<Id>, ghost i: nat) returns (closure: set<Id>)
    requires Selected(p, roots, ids) && i < |ids| && ch == p.changes[ids[i]]
    ensures closure == Ancestors(p, ch)
  {
    hide Select;
    hide Sorted;
    hide Reaches;
    hide ParentsEarlier;
    ghost var upper := Ancestors(p, ch);
    var g: Graph<Id> := InnerGraph(p);
    assert ids[i] in ids && ch.inner in g;
    AncestorsClosedInPool(p, roots, ids, i);
    closure := {};
    var parents := Sorted(ch.dependencies);
    for j := 0 to |parents|
      invariant closure <= upper && Closed(g, closure)
      invariant forall k :: 0 <= k < j ==> parents[k] in closure
    {
      assert parents[j] in g[ch.inner];
      closure := AddAncestors(g, parents[j], closure, upper);
    }
    forall x | x in upper
      ensures x in closure
    {
      ReachesStays(g, ch.inner, x, closure);
    }
  }

  lemma {:induction false} AncestorsClosedInPool(p: Pool, roots: set<Id>, ids: seq<Id>, i: nat)
    requires Selected(p, roots, ids) && i < |ids|
    ensures var anc := Ancestors(p, p.changes[ids[i]]);
            && Closed(InnerGraph(p), anc) && anc <= InnerGraph(p).Keys
            && forall c :: c in InnerGraph(p)[p.changes[ids[i]].inner] ==> c in anc
  {
    hide Select;
    hide Sorted;
    hide Reaches;
    hide ParentsEarlier;
    var ch := p.changes[ids[i]];
    var g: Graph<Id> := InnerGraph(p);
    assert ids[i] in ids;
    forall c | c in g[ch.inner]
      ensures c in Ancestors(p, ch)
    {
      ParentReached(g, ch.inner, c);
      AncestryInPool(p, roots, ids, i, c);
    }
    forall x, c | x in Ancestors(p, ch) && x in g && c in g[x]
      ensures c in Ancestors(p, ch)
    {
      ParentReached(g, x, c);
      ReachesTransitive(g, ch.inner, x, c);
      AncestryInPool(p, roots, ids, i, c);
    }
  }

  /** What is wrong with a selection that is refused with this code. */
  ghost predicate SelectionFault(auth: Authority, raw: map<Id, Raw>, applied: set<Id>, p: Pool, ids: seq<Id>, code: Code)
    requires forall e :: e in ids ==> e in p.changes && e in raw
  {
    match code
    case InputVerificationFailed => exists e :: e in ids && e !in applied && auth.refuses(e, raw[e])
    case DependencyScopeMismatch => exists e :: e in ids && !CausallySound(p, p.changes[e])
    case PreviousMismatch => exists e :: e in ids && !CausallySound(p, p.changes[e])
    case _ => false
  }

  lemma {:induction false} SelectionFaults(auth: Authority, raw: map<Id, Raw>, applied: set<Id>, p: Pool, ids: seq<Id>, i: nat)
    requires (forall e :: e in ids ==> e in p.changes && e in raw) && i < |ids|
    ensures ids[i] !in applied && auth.refuses(ids[i], raw[ids[i]]) ==> SelectionFault(auth, raw, applied, p, ids, InputVerificationFailed)
    ensures !CausallySound(p, p.changes[ids[i]]) ==>
              SelectionFault(auth, raw, applied, p, ids, DependencyScopeMismatch) && SelectionFault(auth, raw, applied, p, ids, PreviousMismatch)
  {
  }

  method CheckSelection(auth: Authority, raw: map<Id, Raw>, applied: set<Id>, p: Pool, ids: seq<Id>, ghost roots: set<Id>)
    returns (fault: Option<Code>)
    requires Selected(p, roots, ids) && Total(SelectedDependencies(p, ids)) <= MAX_CLOSURE_BYTES
    requires p.changes.Keys == raw.Keys
    ensures fault.None? <==> forall e :: e in ids ==> CausallySound(p, p.changes[e]) && (e in applied || !auth.refuses(e, raw[e]))
    ensures fault.Some? ==> fault.value != ResourceLimit && SelectionFault(auth, raw, applied, p, ids, fault.value)
  {
    hide SelectionFault;
    hide Select;
    hide ParentsEarlier;
    hide CausallySound;
    hide CoreRequest;
    hide Total;
    hide Sorted;
    for i := 0 to |ids|
      invariant forall j :: 0 <= j < i ==>
        CausallySound(p, p.changes[ids[j]]) && (ids[j] in applied || !auth.refuses(ids[j], raw[ids[j]]))
    {
      var e := ids[i];
      assert e in ids;
      SelectionFaults(auth, raw, applied, p, ids, i);
      if e !in applied && auth.refuses(e, raw[e]) { return Some(InputVerificationFailed); }
      var closure := ClosureOf(p, p.changes[e], roots, ids, i);
      var verdict := RunCoreRequest(p.changes[e], ClosureTuple(p, closure));
      CollectedClosureVerdict(p, roots, ids, i);
      if verdict.Err? { return Some(verdict.error); }
    }
    fault := None;
  }

  method SumSizes(p: Pool, ids: seq<Id>) returns (total: nat)
    requires forall e :: e in ids ==> e in p.changes
    ensures total == Total(SelectedDependencies(p, ids))
  {
    ghost var all := SelectedDependencies(p, ids);
    total := 0;
    for i := 0 to |ids|
      invariant total == Total(all[..i])
    {
      assert all[..i + 1][..i] == all[..i];
      total := total + p.changes[ids[i]].size;
    }
    assert all[..|ids|] == all;
  }

  lemma {:induction false} SelectedOrder(p: Pool, roots: set<Id>)
    requires ValidPool(p)
    ensures Select(p, roots).Done? <==> Selected(p, roots, Order(p, roots))
    ensures Select(p, roots).Done? ==> Select(p, roots).order == Envelopes(Order(p, roots))
  {
    if Select(p, roots).Done? {
      var ids := SelectLists(p, roots);
      hide Select;
      assert Order(p, roots) == ids;
    }
  }

  ghost predicate Checks(auth: Authority, raw: map<Id, Raw>, applied: set<Id>, p: Pool, roots: set<Id>)
    requires p.changes.Keys == raw.Keys
  {
    var ids := Order(p, roots);
    && Selected(p, roots, ids)
    && Total(SelectedDependencies(p, ids)) <= MAX_CLOSURE_BYTES
    && (forall e :: e in ids ==> CausallySound(p, p.changes[e]) && (e in applied || !auth.refuses(e, raw[e])))
  }

  /**
   Collecting succeeds exactly when the stated conditions hold, and then returns the
   selection in causal order, its heads and its records by envelope.
   */
  method RunCollect(auth: Authority, external: map<Id, Raw>, inputs: map<Id, Raw>, targets: set<Id>) returns (r: Result<Collected, Code>)
    ensures r.Ok? <==> Collectable(auth, external, inputs, targets)
    ensures r.Ok? ==> r.value == Gathered(auth, external, inputs, targets)
    ensures r.Ok? ==> Delivers(auth, external + inputs, targets + inputs.Keys, r.value)
    ensures r.Err? ==> CollectFault(auth, external, inputs, targets, r.error)
  {
    hide PoolFault;
    hide CheckFault;
    hide Delivers;
    hide Selected;
    hide Sound;
    hide Opened;
    hide CausallySound;
    hide ValidPool;
    hide Checks;
    hide Order;
    hide Collectable;
    hide Gathered;
    var merged := MergeInputs(external, inputs);
    CollectableSteps(auth, external, inputs, targets);
    if merged.None? { return Err(InputEquivocation); }
    var raw := merged.value;
    if targets <= inputs.Keys { return Err(NoNewChanges); }
    var opening := OpenPool(auth, raw);
    if opening.Err? { return Err(opening.error); }
    r := SelectAndCheck(auth, raw, inputs.Keys, opening.value, targets + inputs.Keys);
    if r.Ok? {
      GatheredDelivers(auth, external, inputs, targets);
    }
  }

  lemma {:induction false} CollectableSteps(auth: Authority, external: map<Id, Raw>, inputs: map<Id, Raw>, targets: set<Id>)
    ensures var raw := external + inputs;
            && (Collectable(auth, external, inputs, targets) <==>
                  && (forall e :: e in external && e in inputs ==> external[e] == inputs[e])
                  && !(targets <= inputs.Keys) && Sound(auth, raw)
                  && Opened(auth, raw).changes.Keys == raw.Keys
                  && Checks(auth, raw, inputs.Keys, Opened(auth, raw), targets + inputs.Keys))
            && (Sound(auth, raw) ==> Opened(auth, raw).changes.Keys == raw.Keys)
            && (Collectable(auth, external, inputs, targets) ==>
                  var p := Opened(auth, raw);
                  var ids := Order(p, targets + inputs.Keys);
                  && (forall e :: e in ids ==> e in p.changes && e in raw)
                  && Gathered(auth, external, inputs, targets) == Collected(RequestOf(p, ids), RecordsOf(p, raw, ids)))
  {
    hide CausallySound;
    hide ValidPool;
    hide Select;
    hide ParentsEarlier;
    hide Total;
    hide Order;
    hide RequestOf;
    hide RecordsOf;
  }

  /** The traversal from the sorted roots, and the envelopes it lists. */
  method RunSelect(p: Pool, roots: set<Id>) returns (out: Outcome<Key>, ids: seq<Id>)
    requires ValidPool(p)
    ensures out == Select(p, roots) && ids == Order(p, roots)
    ensures out.Done? <==> Selected(p, roots, ids)
  {
    SelectedOrder(p, roots);
    hide Walk;
    hide Sorted;
    hide PoolGraph;
    hide ValidPool;
    hide Selected;
    var walker := new Walker(PoolGraph(p), MAX_INPUTS);
    out := walker.VisitAll(Envelopes(Sorted(roots)), []);
    ids := [];
    if out.Done? {
      ids := seq(|out.order|, i requires 0 <= i < |out.order| => KeyId(out.order[i]));
    }
  }

  /** What stands against a selection: the traversal, its size, or one of its changes. */
  ghost predicate CheckFault(auth: Authority, raw: map<Id, Raw>, applied: set<Id>, p: Pool, roots: set<Id>, code: Code)
    requires p.changes.Keys == raw.Keys
  {
    match code
    case DependenciesMissing => Select(p, roots).Missing?
    case DependencyCycle => Select(p, roots).Cycle?
    case ResourceLimit =>
      Select(p, roots).OverLimit? || exists ids :: Selected(p, roots, ids) && Total(SelectedDependencies(p, ids)) > MAX_CLOSURE_BYTES
    case _ => exists ids :: Selected(p, roots, ids) && SelectionFault(auth, raw, applied, p, ids, code)
  }

  lemma {:induction false} CheckFaults(auth: Authority, raw: map<Id, Raw>, applied: set<Id>, p: Pool, roots: set<Id>, ids: seq<Id>)
    requires p.changes.Keys == raw.Keys
    ensures Select(p, roots).Missing? ==> CheckFault(auth, raw, applied, p, roots, DependenciesMissing)
    ensures Select(p, roots).Cycle? ==> CheckFault(auth, raw, applied, p, roots, DependencyCycle)
    ensures Select(p, roots).OverLimit? ==> CheckFault(auth, raw, applied, p, roots, ResourceLimit)
    ensures Selected(p, roots, ids) && Total(SelectedDependencies(p, ids)) > MAX_CLOSURE_BYTES ==> CheckFault(auth, raw, applied, p, roots, ResourceLimit)
    ensures Selected(p, roots, ids) ==>
              forall code :: SelectionFault(auth, raw, applied, p, ids, code) ==> CheckFault(auth, raw, applied, p, roots, code)
  {
    hide Select;
    hide Total;
    hide CausallySound;
    hide SelectedDependencies;
    if Selected(p, roots, ids) {
      forall code | SelectionFault(auth, raw, applied, p, ids, code)
        ensures CheckFault(auth, raw, applied, p, roots, code)
      {
        assert code in {InputVerificationFailed, DependencyScopeMismatch, PreviousMismatch};
        hide SelectionFault;
      }
    }
  }

  /** What a refusal to collect says of the pools and the targets. */
  ghost predicate CollectFault(auth: Authority, external: map<Id, Raw>, inputs: map<Id, Raw>, targets: set<Id>, code: Code) {
    var raw := external + inputs;
    || (code == InputEquivocation && exists e :: e in external && e in inputs && external[e] != inputs[e])
    || (code == NoNewChanges && targets <= inputs.Keys)
    || PoolFault(auth, raw, code)
    || (Sound(auth, raw) && CheckFault(auth, raw, inputs.Keys, Opened(auth, raw), targets + inputs.Keys, code))
  }

  method SelectAndCheck(auth: Authority, raw: map<Id, Raw>, applied: set<Id>, p: Pool, roots: set<Id>) returns (r: Result<Collected, Code>)
    requires ValidPool(p) && p.changes.Keys == raw.Keys
    ensures r.Ok? <==> Checks(auth, raw, applied, p, roots)
    ensures r.Ok? ==> var ids := Order(p, roots);
              && (forall e :: e in ids ==> e in p.changes && e in raw)
              && r.value == Collected(RequestOf(p, ids), RecordsOf(p, raw, ids))
    ensures r.Err? ==> CheckFault(auth, raw, applied, p, roots, r.error)
  {
    hide CheckFault;
    hide CausallySound;
    hide ParentsEarlier;
    hide ValidPool;
    hide Total;
    hide RequestOf;
    hide RecordsOf;
    hide Select;
    hide Order;
    var out, ids := RunSelect(p, roots);
    CheckFaults(auth, raw, applied, p, roots, ids);
    hide SelectionFault;
    match out
    case Missing(_) => return Err(DependenciesMissing);
    case Cycle(_) => return Err(DependencyCycle);
    case OverLimit => return Err(ResourceLimit);
    case Done(_) => r := FinishSelection(auth, raw, applied, p, roots, ids);
  }

  method FinishSelection(auth: Authority, raw: map<Id, Raw>, applied: set<Id>, p: Pool, roots: set<Id>, ids: seq<Id>)
    returns (r: Result<Collected, Code>)
    requires p.changes.Keys == raw.Keys && Selected(p, roots, ids) && ids == Order(p, roots)
    ensures r.Ok? <==> Checks(auth, raw, applied, p, roots)
    ensures r.Ok? ==> r.value == Collected(RequestOf(p, ids), RecordsOf(p, raw, ids))
    ensures r == Err(ResourceLimit) ==> Total(SelectedDependencies(p, ids)) > MAX_CLOSURE_BYTES
    ensures r.Err? && r.error != ResourceLimit ==> SelectionFault(auth, raw, applied, p, ids, r.error)
  {
    hide SelectionFault;
    hide CausallySound;
    hide ParentsEarlier;
    hide ValidPool;
    hide Select;
    hide Total;
    hide Order;
    hide RequestOf;
    hide RecordsOf;
    hide SelectedDependencies;
    var total := SumSizes(p, ids);
    if total > MAX_CLOSURE_BYTES { return Err(ResourceLimit); }
    var fault := CheckSelection(auth, raw, applied, p, ids, roots);
    if fault.Some? { return Err(fault.value); }
    r := Ok(Collected(RequestOf(p, ids), RecordsOf(p, raw, ids)));
  }
}
