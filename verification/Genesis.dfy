/** Where every run starts: the empty store is in order, and a first change can be applied to it. */
module Genesis {
  import opened Ordering
  import opened ClosureWalk
  import opened Contracts
  import opened Selection
  import opened CausalCheck
  import opened Collect
  import opened Ledger
  import opened Commit
  import opened Prepare
  import opened Tickets
  import opened Applier
  import opened Runs

  const EMPTY := Db(map[], map[], map[], map[])

  lemma {:induction false} EmptyStoreIsOk(h: Hasher, generation: Id)
    ensures Audited(h, generation, EMPTY) && Constraints(EMPTY)
    ensures WorldOk(h, generation, World(EMPTY, map[], {}))
  {
  }

  /** A change without dependencies that starts its author's sequence. */
  ghost predicate IsRoot(ch: Change) {
    ch.sequence == 1 && ch.dependencies == {} && ch.size <= MAX_CLOSURE_BYTES
  }

  function SinglePool(x: Id, ch: Change): Pool {
    Pool(map[x := ch], map[ch.inner := x])
  }

  lemma {:induction false} SingleWalk(x: Id, ch: Change)
    requires IsRoot(ch)
    ensures Select(SinglePool(x, ch), {x}) == Done([Envelope(x)])
  {
    var g := PoolGraph(SinglePool(x, ch));
    SortedUnique(Sorted({x}), [x]);
    assert Envelope(x) in g && g[Envelope(x)] == [];
    assert Envelopes([x]) == [Envelope(x)];
    assert Walk(g, MAX_INPUTS, [Envelope(x)], [], []) == Done([]);
    WalkOpens(g, MAX_INPUTS, [], [], Envelope(x));
  }

  lemma {:induction false} SingleSelection(x: Id, ch: Change)
    requires IsRoot(ch)
    ensures Order(SinglePool(x, ch), {x}) == [x] && Selected(SinglePool(x, ch), {x}, [x])
  {
    hide Select;
    hide Sorted;
    SingleWalk(x, ch);
    assert Envelopes([x]) == [Envelope(x)];
    assert Order(SinglePool(x, ch), {x}) == [x];
  }

  lemma {:induction false} SingleIsSound(x: Id, ch: Change)
    requires IsRoot(ch)
    ensures CausallySound(SinglePool(x, ch), ch)
  {
    var p := SinglePool(x, ch);
    var g := InnerGraph(p);
    assert g[ch.inner] == [];
    forall k | k in Ancestors(p, ch)
      ensures false
    {
      ReachesStays(g, ch.inner, k, {});
    }
  }

  lemma {:induction false} SingleOpens(auth: Authority, x: Id, raw: Raw, ch: Change)
    requires auth.open(x, raw) == Some(ch)
    ensures Sound(auth, map[x := raw]) && Opened(auth, map[x := raw]) == SinglePool(x, ch)
  {
    assert OpensTo(auth, map[x := raw], SinglePool(x, ch));
    OpenedUnique(auth, map[x := raw], SinglePool(x, ch));
  }

  lemma {:induction false} SingleCollects(auth: Authority, x: Id, raw: Raw, ch: Change)
    requires auth.open(x, raw) == Some(ch) && !auth.refuses(x, raw) && IsRoot(ch)
    ensures Collectable(auth, map[x := raw], map[], {x})
    ensures var c := Gathered(auth, map[x := raw], map[], {x});
            c.request == ApplyRequest([ch], {ch.inner}) && c.records == map[x := InputRecord(ch.inner, raw)]
  {
    var p := SinglePool(x, ch);
    hide Opened;
    hide Sound;
    hide Order;
    hide Selected;
    hide CausallySound;
    SingleOpens(auth, x, raw, ch);
    SingleSelection(x, ch);
    SingleIsSound(x, ch);
    assert map[x := raw] + map[] == map[x := raw];
    var none: map<Id, Raw> := map[];
    assert {x} + none.Keys == {x};
    assert SelectedDependencies(p, [x]) == [Dependency(x, ch)];
    assert Total([Dependency(x, ch)]) == ch.size by {
      assert [Dependency(x, ch)][..0] == [];
    }
    assert RequestOf(p, [x]).changes == [ch];
    assert Heads(p, [x]) == {ch.inner} by {
      assert Hashes(p, [x]) == {ch.inner};
    }
  }

  /**
   A root change that opens and is authorized can be prepared on the empty store and
   committed, and leaves an audited store with exactly its event, its input and its hash
   as the only head.
   */
  lemma {:induction false} FirstChangeApplies(h: Hasher, generation: Id, i: Intent, e: Setting, x: Id, raw: Raw, ch: Change)
    requires e.auth.open(x, raw) == Some(ch) && !e.auth.refuses(x, raw) && IsRoot(ch) && e.external == map[x := raw]
    requires i.targets == {x} && i.expectedRevision == 0
    ensures Preparable(h, EMPTY, i, e)
    ensures var p, db := PreparedOf(h, generation, EMPTY, i, e), Reserved(h, EMPTY, i, e);
            && Ready(h, generation, db, p) && p.record.meta.reservation in db.nonces
            && Audited(h, generation, Applied(h, db, p)) && Constraints(Applied(h, db, p))
            && Applied(h, db, p).events == map[i.operation := EventOf(h, p)]
            && p.record.meta.recording.heads == {ch.inner} && p.record.meta.recording.inputs.Keys == {x}
            && p.record.meta.revision == 1
  {
    hide Collectable;
    hide Gathered;
    hide Audited;
    hide Ready;
    SingleCollects(e.auth, x, raw, ch);
    EmptyStoreIsOk(h, generation);
    assert RawInputs(EMPTY, h.scope(i.scope)) == map[];
    assert |i.targets| == 1;
    assert Preparable(h, EMPTY, i, e);
    PreparedIsReady(h, generation, EMPTY, i, e);
    ReserveKeepsAudit(h, generation, EMPTY, i, e);
    var p, db := PreparedOf(h, generation, EMPTY, i, e), Reserved(h, EMPTY, i, e);
    ReadyBasics(h, generation, db, p);
    CommitKeepsAudit(h, generation, db, p);
  }

  ghost predicate AppliesFirst(e: Setting, i: Intent, x: Id, raw: Raw, ch: Change) {
    && e.auth.open(x, raw) == Some(ch) && !e.auth.refuses(x, raw) && IsRoot(ch) && e.external == map[x := raw]
    && i.targets == {x} && i.expectedRevision == 0
  }

  /**
   A run from the empty store in which the closing read of a commit raises: the commit fails,
   not with an unknown outcome, the applier is not uncertain, and the event is in the store.
   */
  lemma {:induction false} FailedCommitMayAdd(h: Hasher, generation: Id, i: Intent, e: Setting, x: Id, raw: Raw, ch: Change, id: Id)
    returns (run: seq<World>, labels: seq<Label>)
    requires AppliesFirst(e, i, x, raw, ch)
    ensures IsRun(h, generation, run, labels) && |run| == 4 && run[0] == World(EMPTY, map[], {})
    ensures labels[2].Commitment? && labels[2].reply == Failed(PinReadRaised) && run[3].sessions == run[2].sessions
    ensures id in run[3].sessions && !run[3].sessions[id].uncertain
    ensures run[2].db.events == map[] && run[3].db.events.Keys == {i.operation} && IntentRecorded(h, run[3].db, i)
  {
    hide Preparable;
    hide PreparedOf;
    hide Ready;
    FirstChangeApplies(h, generation, i, e, x, raw, ch);
    var p, db := PreparedOf(h, generation, EMPTY, i, e), Reserved(h, EMPTY, i, e);
    FirstTicket(h, generation, i, e);
    var idle := map[id := Session(i.scope, false, None, {})];
    var ready := map[id := Session(i.scope, false, None, {p})];
    var a, b, c, d := World(EMPTY, map[], {}), World(EMPTY, idle, {}), World(db, ready, {}), World(Applied(h, db, p), ready, {});
    var first, second, third := Opening(id, i.scope, None), Preparation(id, i, e, Issued(p)), Commitment(id, p, Failed(PinReadRaised));
    assert Next(h, generation, a, first, b);
    assert Next(h, generation, b, second, c) by {
      assert c.sessions == b.sessions[id := c.sessions[id]];
    }
    assert Next(h, generation, c, third, d) by {
      assert d.sessions == c.sessions[id := d.sessions[id]];
    }
    run, labels := [a, b, c, d], [first, second, third];
  }

  lemma {:induction false} FirstTicket(h: Hasher, generation: Id, i: Intent, e: Setting)
    requires Preparable(h, EMPTY, i, e)
    ensures var p := PreparedOf(h, generation, EMPTY, i, e);
            && IntentOf(p) == i && p.operation == i.operation && EventOf(h, p).scope == h.scope(i.scope)
            && EventOf(h, p).requestDigest == h.intent(i) && p.record.meta.reservation == e.reservation
  {
    hide Collectable;
    hide Gathered;
  }

  /** A preparation that fails after its reservation's COMMIT leaves the reservation, and no event. */
  lemma {:induction false} FailedPrepareMayReserve(h: Hasher, generation: Id, i: Intent, e: Setting, x: Id, raw: Raw, ch: Change, id: Id)
    returns (run: seq<World>, labels: seq<Label>)
    requires AppliesFirst(e, i, x, raw, ch)
    ensures IsRun(h, generation, run, labels) && |run| == 3 && run[0] == World(EMPTY, map[], {})
    ensures labels[1].Preparation? && labels[1].reply == Failed(SealRaised) && run[2].sessions == run[1].sessions
    ensures run[2].db.events == map[] && run[1].db.nonces == map[] && run[2].db.nonces.Keys == {e.reservation}
  {
    hide Preparable;
    hide PreparedOf;
    hide Ready;
    hide Applied;
    hide Audited;
    hide Constraints;
    FirstChangeApplies(h, generation, i, e, x, raw, ch);
    var idle := map[id := Session(i.scope, false, None, {})];
    var a, b, c := World(EMPTY, map[], {}), World(EMPTY, idle, {}), World(Reserved(h, EMPTY, i, e), idle, {});
    var first, second := Opening(id, i.scope, None), Preparation(id, i, e, Failed(SealRaised));
    assert Next(h, generation, a, first, b);
    assert Next(h, generation, b, second, c) by {
      assert c.sessions == b.sessions[id := c.sessions[id]];
    }
    run, labels := [a, b, c], [first, second];
  }
}
