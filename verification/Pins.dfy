/** Pins: what an accepted pin says about a ledger, now and later (`_pin_raw`, `_check_pin`). */
module Pins {
  import opened Ordering
  import opened Replay
  import opened Ledger
  import opened Commit

  datatype Pin = Pin(generation: Id, scope: Digest, revision: nat, digest: Digest)

  function PinOf(generation: Id, db: Db, s: Digest): Pin {
    Pin(generation, s, Revision(db, s), FrontierDigest(db, s))
  }

  ghost predicate PinAccepted(generation: Id, db: Db, s: Digest, pin: Pin) {
    && pin.revision <= MAX_EVENTS && pin.generation == generation && pin.scope == s
    && Revision(db, s) >= pin.revision
    && if pin.revision == 0 then pin.digest == 0 else HasEventAt(db, s, pin.revision, pin.digest)
  }

  ghost predicate HasEventAt(db: Db, s: Digest, revision: nat, digest: Digest) {
    exists op :: op in db.events && db.events[op].scope == s && db.events[op].revision == revision && db.events[op].digest == digest
  }

  /** The ledger only grows: events and input rows stay, revisions never go back, used nonces stay used. */
  ghost predicate Extends(db: Db, db': Db) {
    && (forall op :: op in db.events ==> op in db'.events && db'.events[op] == db.events[op])
    && (forall s :: Revision(db, s) <= Revision(db', s))
    && (forall s, x :: x in Stored(db, s) ==> x in Stored(db', s) && Stored(db', s)[x] == Stored(db, s)[x])
    && (forall n :: n in db.nonces ==> n in db'.nonces && (db.nonces[n].usedBy.Some? ==> db'.nonces[n] == db.nonces[n]))
  }

  lemma {:induction false} ExtendsTransitive(a: Db, b: Db, c: Db)
    requires Extends(a, b) && Extends(b, c)
    ensures Extends(a, c)
  {
  }

  lemma {:induction false} RevisionAdvances(h: Hasher, db: Db, p: Prepared)
    requires p.record.meta.reservation in db.nonces && Revision(db, ScopeOf(p)) + 1 == p.record.meta.revision
    ensures var db' := Applied(h, db, p);
            && (forall s :: Revision(db', s) == if s == ScopeOf(p) then Revision(db, s) + 1 else Revision(db, s))
            && (forall n :: n in db.nonces && n != p.record.meta.reservation ==> n in db'.nonces && db'.nonces[n] == db.nonces[n])
            && p.record.meta.reservation in db'.nonces
  {
  }

  lemma {:induction false} CommitExtends(h: Hasher, generation: Id, db: Db, p: Prepared)
    requires Ready(h, generation, db, p)
    ensures Extends(db, Applied(h, db, p))
    ensures Revision(Applied(h, db, p), ScopeOf(p)) == Revision(db, ScopeOf(p)) + 1
  {
    hide Ready;
    hide Applied;
    hide Stored;
    hide Revision;
    ReadyBasics(h, generation, db, p);
    AppliedRows(h, db, p);
    RevisionAdvances(h, db, p);
  }

  /** A pin once accepted stays accepted however the ledger grows. */
  lemma {:induction false} PinStays(generation: Id, db: Db, db': Db, s: Digest, pin: Pin)
    requires PinAccepted(generation, db, s, pin) && Extends(db, db')
    ensures PinAccepted(generation, db', s, pin)
  {
  }

  /** A ledger's own pin is accepted. */
  lemma {:induction false} OwnPinAccepted(h: Hasher, generation: Id, db: Db, s: Digest)
    requires Audited(h, generation, db)
    ensures PinAccepted(generation, db, s, PinOf(generation, db, s))
  {
    if s in db.frontiers {
      assert FrontierOk(db, s);
      assert EventOk(h, generation, db, db.frontiers[s].operation);
    }
  }

  /** It names the last event of the scope by revision and digest, or that there is none. */
  lemma {:induction false} OwnPinNamesLast(h: Hasher, generation: Id, db: Db, s: Digest)
    requires Audited(h, generation, db)
    ensures var pin := PinOf(generation, db, s);
            && pin.generation == generation && pin.scope == s
            && (pin.revision == 0 <==> forall op :: op in db.events ==> db.events[op].scope != s)
            && (pin.revision == 0 ==> pin.digest == 0)
            && (pin.revision > 0 ==> exists op :: op in db.events && db.events[op].scope == s && IsLast(db, op)
                                                  && db.events[op].revision == pin.revision && db.events[op].digest == pin.digest)
  {
    if s in db.frontiers {
      FrontierIsLastEvent(h, generation, db, s);
      var op := db.frontiers[s].operation;
      assert EventOk(h, generation, db, op) && IsLast(db, op);
    }
  }

  ghost predicate InjectiveRecords(h: Hasher) {
    forall a, b :: h.record(a) == h.record(b) ==> a == b
  }

  /** Equal digests at one revision make the two histories equal up to it. */
  lemma {:induction false} PrefixAgreement(h: Hasher, generation: Id, db: Db, db': Db, a: Id, b: Id, c: Id)
    requires InjectiveRecords(h)
    requires Audited(h, generation, db) && Audited(h, generation, db') && Constraints(db)
    requires a in db.events && b in db'.events && c in db.events
    requires db.events[a].scope == db'.events[b].scope && db.events[a].digest == db'.events[b].digest
    requires db.events[c].scope == db.events[a].scope && db.events[c].revision <= db.events[a].revision
    ensures c in db'.events && db'.events[c] == db.events[c]
    decreases db.events[a].revision
  {
    assert EventOk(h, generation, db, a) && EventOk(h, generation, db', b);
    assert a == b && db.events[a] == db'.events[b];
    if db.events[c].revision == db.events[a].revision {
      assert SamePlace(db.events[c], db.events[a]);
    } else {
      assert EventOk(h, generation, db, c);
      var p := PredecessorOf(h, generation, db, a);
      var q := PredecessorOf(h, generation, db', b);
      PrefixAgreement(h, generation, db, db', p, q, c);
    }
  }

  /**
   An accepted pin fixes the whole prefix: two audited ledgers that accept one pin hold the
   same events of its scope up to the pinned revision. So a ledger that lost or replaced any
   of them refuses the pin.
   */
  lemma {:induction false} PinFixesPrefix(h: Hasher, generation: Id, db: Db, db': Db, s: Digest, pin: Pin, c: Id)
    requires InjectiveRecords(h)
    requires Audited(h, generation, db) && Audited(h, generation, db') && Constraints(db)
    requires PinAccepted(generation, db, s, pin) && PinAccepted(generation, db', s, pin)
    requires c in db.events && db.events[c].scope == s && db.events[c].revision <= pin.revision
    ensures c in db'.events && db'.events[c] == db.events[c]
  {
    assert EventOk(h, generation, db, c);
    assert HasEventAt(db, s, pin.revision, pin.digest) && HasEventAt(db', s, pin.revision, pin.digest);
    var a :| a in db.events && db.events[a].scope == s && db.events[a].revision == pin.revision && db.events[a].digest == pin.digest;
    var b :| b in db'.events && db'.events[b].scope == s && db'.events[b].revision == pin.revision && db'.events[b].digest == pin.digest;
    PrefixAgreement(h, generation, db, db', a, b, c);
  }

  /** Every revision from 1 to the frontier has its event. */
  lemma {:induction false} HistoryIsComplete(h: Hasher, generation: Id, db: Db, s: Digest, r: nat) returns (op: Id)
    requires Audited(h, generation, db) && 1 <= r <= Revision(db, s)
    ensures op in db.events && db.events[op].scope == s && db.events[op].revision == r
    decreases Revision(db, s) - r
  {
    assert FrontierOk(db, s);
    if r == Revision(db, s) {
      op := db.frontiers[s].operation;
    } else {
      var next := HistoryIsComplete(h, generation, db, s, r + 1);
      op := PredecessorOf(h, generation, db, next);
    }
  }
}
