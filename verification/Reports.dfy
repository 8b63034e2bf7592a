/** What is written down and what is reported, field by field. */
module Reports {
  import opened Ordering
  import opened ClosureWalk
  import opened Contracts
  import opened Selection
  import opened CausalCheck
  import opened Collect
  import opened Replay
  import opened Ledger
  import opened Commit
  import opened Pins
  import opened Prepare
  import opened Tickets
  import opened Applier
  import opened Runs
  import opened Genesis
  import opened History

  // ---------------------------------------------------------------- the stored frontier

  /** The frontier a commit stores is the ticket's record, field by field. */
  lemma {:induction false} CommittedFrontier(h: Hasher, generation: Id, db: Db, p: Prepared)
    requires Ready(h, generation, db, p) && p.record.meta.reservation in db.nonces
    ensures ScopeOf(p) in Applied(h, db, p).frontiers
    ensures var f := Applied(h, db, p).frontiers[ScopeOf(p)];
            var m := p.record.meta;
            && f.operation == p.operation && f.revision == m.revision == m.expectedRevision + 1
            && f.digest == h.record(p.record) && f.heads == m.recording.heads && f.evidence == m.evidence
  {
    hide KeepsRows;
  }

  /** The stored heads are the maximal hashes of what the preparation selected. */
  lemma {:induction false} CommittedHeadsAreMaximal(h: Hasher, generation: Id, start: Db, i: Intent, e: Setting, db: Db)
    requires Preparable(h, start, i, e)
    requires var p := PreparedOf(h, generation, start, i, e);
             Ready(h, generation, db, p) && p.record.meta.reservation in db.nonces
    ensures var p := PreparedOf(h, generation, start, i, e);
            var stored := RawInputs(start, h.scope(i.scope));
            var pool := Opened(e.auth, e.external + stored);
            var ids := Order(pool, i.targets + stored.Keys);
            && Selected(pool, i.targets + stored.Keys, ids) && ScopeOf(p) in Applied(h, db, p).frontiers
            && var heads := Applied(h, db, p).frontiers[ScopeOf(p)].heads;
               && heads != {}
               && forall k :: k in heads <==>
                    k in Hashes(pool, ids) && forall y :: y in Hashes(pool, ids) ==> !Reaches(InnerGraph(pool), y, k)
  {
    var p := PreparedOf(h, generation, start, i, e);
    CommittedFrontier(h, generation, db, p);
    PreparedRecords(h, generation, start, i, e);
    hide Ready;
    hide Applied;
    hide PreparedOf;
    HeadsOfGathered(e.auth, e.external, RawInputs(start, h.scope(i.scope)), i.targets);
  }

  lemma {:induction false} HeadsOfGathered(auth: Authority, external: map<Id, Raw>, inputs: map<Id, Raw>, targets: set<Id>)
    requires Collectable(auth, external, inputs, targets)
    ensures var pool := Opened(auth, external + inputs);
            var ids := Order(pool, targets + inputs.Keys);
            && Selected(pool, targets + inputs.Keys, ids)
            && var heads := Gathered(auth, external, inputs, targets).request.expectedHeads;
               && heads != {}
               && forall k :: k in heads <==>
                    k in Hashes(pool, ids) && forall y :: y in Hashes(pool, ids) ==> !Reaches(InnerGraph(pool), y, k)
  {
    hide CausallySound;
    hide ValidPool;
    hide Select;
    hide ParentsEarlier;
    hide Total;
    hide Order;
    hide Opened;
    hide Reaches;
    var pool := Opened(auth, external + inputs);
    var ids := Order(pool, targets + inputs.Keys);
    var t :| t in targets && t !in inputs;
    assert t in ids;
    FrontierIsMaximal(pool, targets + inputs.Keys, ids);
    assert Heads(pool, ids) <= Hashes(pool, ids);
    hide Heads;
    hide Hashes;
    hide Covered;
  }

  // ---------------------------------------------------------------- what every reported result holds

  ghost predicate InjectiveIntents(h: Hasher) {
    forall a, b :: h.intent(a) == h.intent(b) ==> a == b
  }

  /** The event's digest of its intent is that of the intent its record spells. */
  ghost predicate EventNamed(h: Hasher, op: Id, e: EventRow) {
    var m := e.record.meta;
    e.requestDigest == h.intent(Intent(m.scope, op, m.recording.targets, m.expectedRevision))
  }

  ghost predicate TicketNamed(h: Hasher, p: Prepared) {
    var m := p.record.meta;
    m.recording.targets == p.targets && m.requestDigest == h.intent(IntentOf(p))
  }

  ghost predicate WorldNamed(h: Hasher, w: World) {
    && (forall op :: op in w.db.events ==> EventNamed(h, op, w.db.events[op]))
    && (forall p :: p in TicketsIn(w.sessions) ==> TicketNamed(h, p))
  }

  lemma {:induction false} EmptyWorldNamed(h: Hasher)
    ensures WorldNamed(h, World(EMPTY, map[], {}))
  {
  }

  lemma {:induction false} TicketIsNamed(h: Hasher, generation: Id, db: Db, i: Intent, e: Setting)
    requires Preparable(h, db, i, e)
    ensures TicketNamed(h, PreparedOf(h, generation, db, i, e))
  {
    PreparedRecords(h, generation, db, i, e);
    hide Preparable;
    hide PreparedOf;
  }

  lemma {:induction false} AppliedNamed(h: Hasher, db: Db, p: Prepared)
    requires p.record.meta.reservation in db.nonces && TicketNamed(h, p)
    ensures p.operation in Applied(h, db, p).events && EventNamed(h, p.operation, Applied(h, db, p).events[p.operation])
  {
  }

  lemma {:induction false} NextKeepsNames(h: Hasher, generation: Id, w: World, l: Label, w': World)
    requires Next(h, generation, w, l, w') && WorldNamed(h, w)
    ensures WorldNamed(h, w')
  {
    hide EventNamed;
    hide TicketNamed;
    hide Preparable;
    hide PreparedOf;
    hide Ready;
    hide Applied;
    hide Extends;
    NewTickets(h, generation, w, l, w');
    NewEvents(h, generation, w, l, w');
    NextExtends(h, generation, w, l, w');
    EventsOfExtension(w.db, w'.db);
    hide Next;
    forall p | p in TicketsIn(w'.sessions)
      ensures TicketNamed(h, p)
    {
      if p !in TicketsIn(w.sessions) {
        TicketIsNamed(h, generation, w.db, l.intent, l.setting);
      }
    }
    forall op | op in w'.db.events
      ensures EventNamed(h, op, w'.db.events[op])
    {
      if op !in w.db.events {
        AppliedNamed(h, w.db, l.ticket);
      }
    }
  }

  lemma {:induction false} EventsOfExtension(db: Db, db': Db)
    requires Extends(db, db')
    ensures forall op :: op in db.events ==> op in db'.events && db'.events[op] == db.events[op]
  {
  }

  lemma {:induction false} RunKeepsNames(h: Hasher, generation: Id, run: seq<World>, labels: seq<Label>, k: nat)
    requires IsRun(h, generation, run, labels) && WorldNamed(h, run[0]) && k < |run|
    ensures WorldNamed(h, run[k])
  {
    hide Next;
    hide WorldNamed;
    if k > 0 {
      RunKeepsNames(h, generation, run, labels, k - 1);
      assert Next(h, generation, run[k - 1], labels[k - 1], run[k]);
      NextKeepsNames(h, generation, run[k - 1], labels[k - 1], run[k]);
    }
  }

  /**
   What a caller may read out of a result, over every run from the empty store and whatever
   happens in between: it is about the operation asked for, one revision after the one
   expected; its inputs are the recorded ones and hold all targets; its heads are hashes of
   recorded inputs; and it is validated exactly if the event is.
   */
  lemma {:induction false} ReportMatchesIntent(h: Hasher, generation: Id, run: seq<World>, labels: seq<Label>, k: nat, i: Intent, r: Receipt)
    requires IsRun(h, generation, run, labels) && run[0] == World(EMPTY, map[], {}) && InjectiveIntents(h)
    requires k < |labels| && Reports(labels[k], i, r)
    ensures var db := run[k + 1].db;
            && i.operation in db.events
            && var e := db.events[i.operation];
               && e.scope == h.scope(i.scope) && r.operation == i.operation && r.digest == e.digest == h.record(e.record)
               && r.revision == e.revision == i.expectedRevision + 1 && i.targets <= r.inputs == e.record.meta.recording.inputs.Keys
               && r.heads == e.record.meta.recording.heads && (r.validated <==> e.record.meta.evidence.CoreValidated?)
    ensures var inputs := run[k + 1].db.events[i.operation].record.meta.recording.inputs;
            forall head :: head in r.heads ==> exists x :: x in inputs && inputs[x].inner == head
  {
    EmptyStoreIsOk(h, generation);
    EmptyWorldNamed(h);
    RunKeepsWorld(h, generation, run, labels, k + 1);
    RunKeepsNames(h, generation, run, labels, k + 1);
    assert Next(h, generation, run[k], labels[k], run[k + 1]);
    ReportedIsReturned(h, generation, run[k], labels[k], run[k + 1], i, r);
    hide IsRun;
    hide Next;
    hide Reports;
    ReturnedMatches(h, generation, run[k + 1], i, r);
  }

  lemma {:induction false} ReturnedMatches(h: Hasher, generation: Id, w: World, i: Intent, r: Receipt)
    requires WorldOk(h, generation, w) && WorldNamed(h, w) && InjectiveIntents(h) && (i, r) in w.returned
    ensures i.operation in w.db.events
    ensures var e := w.db.events[i.operation];
            && e.scope == h.scope(i.scope) && r.operation == i.operation && r.digest == e.digest == h.record(e.record)
            && r.revision == e.revision == i.expectedRevision + 1 && i.targets <= r.inputs == e.record.meta.recording.inputs.Keys
            && r.heads == e.record.meta.recording.heads && (r.validated <==> e.record.meta.evidence.CoreValidated?)
    ensures var inputs := w.db.events[i.operation].record.meta.recording.inputs;
            forall head :: head in r.heads ==> exists x :: x in inputs && inputs[x].inner == head
  {
    hide SessionsOk;
    LedgerIsAudited(h, generation, w);
    hide LedgerOk;
    var e := w.db.events[i.operation];
    BoundEvent(h, generation, w.db, i.operation);
    hide Audited;
    hide Constraints;
    HeadsAreRecorded(h, e.record.meta);
    assert EventNamed(h, i.operation, e);
    assert r.inputs == e.record.meta.recording.inputs.Keys;
  }

  lemma {:induction false} BoundEvent(h: Hasher, generation: Id, db: Db, op: Id)
    requires Audited(h, generation, db) && op in db.events
    ensures Bound(h, generation, op, db.events[op])
  {
    assert EventOk(h, generation, db, op);
  }
}
