/** Reading back a committed event: the replay of `observe` over the ledger as it stands later. */
module ReadBack {
  import opened Ordering
  import opened Collect
  import opened Replay
  import opened Ledger
  import opened Commit
  import opened Pins
  import opened Prepare
  import opened Tickets

  /** `history[-2][1]['inputs']`: the inputs of the event before `e`, if any. */
  ghost predicate PreviousInputs(db: Db, e: EventRow, previous: set<Id>) {
    if e.revision == 1 then previous == {}
    else exists p :: p in db.events && Follows(db.events[p], e) && previous == InputsOf(db.events[p]).Keys
  }

  lemma {:induction false} FrontierIsPositive(h: Hasher, generation: Id, db: Db, s: Digest)
    requires Audited(h, generation, db)
    ensures s in db.frontiers <==> Revision(db, s) >= 1
  {
    if s in db.frontiers {
      assert FrontierOk(db, s) && EventOk(h, generation, db, db.frontiers[s].operation);
    }
  }

  /** A frontier that has not moved is the same event, with the same stored inputs. */
  lemma {:induction false} SameStored(h: Hasher, generation: Id, db: Db, db': Db, s: Digest)
    requires Audited(h, generation, db) && Constraints(db) && Audited(h, generation, db') && Constraints(db')
    requires Extends(db, db') && Revision(db, s) == Revision(db', s)
    ensures Stored(db, s).Keys == Stored(db', s).Keys
    ensures (s in db.frontiers <==> s in db'.frontiers)
    ensures s in db.frontiers ==> db'.frontiers[s] == db.frontiers[s]
  {
    StoredAreLast(h, generation, db, s);
    StoredAreLast(h, generation, db', s);
    FrontierIsPositive(h, generation, db, s);
    FrontierIsPositive(h, generation, db', s);
    if s in db.frontiers {
      var op := db.frontiers[s].operation;
      assert FrontierOk(db, s);
      assert op in db'.events && db'.events[op] == db.events[op];
      assert FrontierOk(db', s);
      assert SamePlace(db'.events[db'.frontiers[s].operation], db'.events[op]);
    }
  }

  /** The rows that hold a committed ticket's inputs, now and ever after. */
  lemma {:induction false} CommittedRows(h: Hasher, generation: Id, db: Db, p: Prepared, later: Db, x: Id)
    requires Ready(h, generation, db, p) && Extends(Applied(h, db, p), later) && x in p.records
    ensures x in RawInputs(later, ScopeOf(p)) && RawInputs(later, ScopeOf(p))[x] == p.records[x].raw
  {
    hide Fits;
    ReadyBasics(h, generation, db, p) by { hide KeepsRows; }
    AppliedRows(h, db, p);
    hide Applied;
    assert x in Stored(Applied(h, db, p), ScopeOf(p));
  }

  /**
   Replay over the ledger: an event committed from a prepared request is replayed, at any
   later time, to the very request that was prepared, from its recorded inputs and the
   inputs of the event before it.
   */
  lemma {:induction false} CommittedEventReplays(h: Hasher, generation: Id, start: Db, i: Intent, e: Setting, db: Db, later: Db,
                                                 auth: Authority, previous: set<Id>)
    requires Audited(h, generation, start) && Constraints(start) && Preparable(h, start, i, e)
    requires Audited(h, generation, db) && Constraints(db) && Extends(Reserved(h, start, i, e), db)
    requires var p := PreparedOf(h, generation, start, i, e);
             && Ready(h, generation, db, p) && Extends(Applied(h, db, p), later)
             && PreviousInputs(Applied(h, db, p), EventOf(h, p), previous)
             && (forall x :: x in p.records ==> auth.open(x, p.records[x].raw) == e.auth.open(x, p.records[x].raw))
    ensures var p := PreparedOf(h, generation, start, i, e);
            var c := Gathered(e.auth, e.external, RawInputs(start, h.scope(i.scope)), i.targets);
            exists pool :: Replays(auth, h.base, RawInputs(later, ScopeOf(p)), p.record.meta.recording, previous, pool, c.request)
  {
    var p := PreparedOf(h, generation, start, i, e);
    var s := h.scope(i.scope);
    var stored := RawInputs(start, s);
    PreviousAreStored(h, generation, start, i, e, db, previous);
    forall x | x in p.records
      ensures x in RawInputs(later, s) && RawInputs(later, s)[x] == p.records[x].raw
    {
      CommittedRows(h, generation, db, p, later, x);
    }
    hide Collectable;
    hide Gathered;
    hide Audited;
    hide Constraints;
    hide Ready;
    hide Applied;
    hide Extends;
    hide Replays;
    ReplayRefinesCollect(e.auth, h.base, e.external, stored, i.targets, auth, RawInputs(later, s));
  }

  lemma {:induction false} PreparedPlace(h: Hasher, generation: Id, start: Db, i: Intent, e: Setting)
    requires Preparable(h, start, i, e)
    ensures var p := PreparedOf(h, generation, start, i, e);
            var s := h.scope(i.scope);
            && ScopeOf(p) == s && p.record.meta.revision == Revision(start, s) + 1 && p.record.meta.reservation == e.reservation
            && e.reservation !in start.nonces && RawInputs(start, s).Keys == Stored(start, s).Keys
  {
  }

  lemma {:induction false} PreviousAreStored(h: Hasher, generation: Id, start: Db, i: Intent, e: Setting, db: Db, previous: set<Id>)
    requires Audited(h, generation, start) && Constraints(start) && Preparable(h, start, i, e)
    requires Audited(h, generation, db) && Constraints(db) && Extends(Reserved(h, start, i, e), db)
    requires var p := PreparedOf(h, generation, start, i, e);
             Ready(h, generation, db, p) && PreviousInputs(Applied(h, db, p), EventOf(h, p), previous)
    ensures previous == RawInputs(start, h.scope(i.scope)).Keys
  {
    hide PreparedOf;
    hide Preparable;
    hide Ready;
    hide Audited;
    hide Constraints;
    hide Extends;
    hide Reserved;
    hide PreviousInputs;
    hide Applied;
    hide FrontierOk;
    hide Follows;
    hide NewRows;
    var p := PreparedOf(h, generation, start, i, e);
    PreparedPlace(h, generation, start, i, e);
    ReserveExtends(h, start, i, e);
    ExtendsTransitive(start, Reserved(h, start, i, e), db);
    ReadyBasics(h, generation, db, p);
    PreviousFromFrontier(h, generation, start, db, p, previous);
  }

  lemma {:induction false} PreviousFromFrontier(h: Hasher, generation: Id, start: Db, db: Db, p: Prepared, previous: set<Id>)
    requires Audited(h, generation, start) && Constraints(start) && Audited(h, generation, db) && Constraints(db) && Extends(start, db)
    requires p.record.meta.revision == Revision(start, ScopeOf(p)) + 1
    requires Ready(h, generation, db, p) && p.record.meta.reservation in db.nonces && PreviousInputs(Applied(h, db, p), EventOf(h, p), previous)
    ensures previous == Stored(start, ScopeOf(p)).Keys
  {
    hide Audited;
    hide Constraints;
    hide Extends;
    hide Ready;
    hide Applied;
    hide FrontierOk;
    hide Follows;
    hide NewRows;
    var s := ScopeOf(p);
    ReadyBasics(h, generation, db, p);
    SameStored(h, generation, start, db, s);
    StoredAreLast(h, generation, db, s);
    NewFollows(h, generation, db, p);
    if EventOf(h, p).revision != 1 {
      PreviousIsFrontier(h, db, p, previous);
    }
  }

  lemma {:induction false} PreviousIsFrontier(h: Hasher, db: Db, p: Prepared, previous: set<Id>)
    requires Constraints(db) && p.record.meta.reservation in db.nonces && p.operation !in db.events
    requires ScopeOf(p) in db.frontiers && FrontierOk(db, ScopeOf(p))
    requires Follows(db.events[db.frontiers[ScopeOf(p)].operation], EventOf(h, p)) && p.record.meta.revision > 1
    requires PreviousInputs(Applied(h, db, p), EventOf(h, p), previous)
    ensures previous == InputsOf(db.events[db.frontiers[ScopeOf(p)].operation]).Keys
  {
  }
}
