/** The inserts of `commit` keep the audit; digests fix prefixes; pins stay accepted. */
module Commit {
  import opened Ordering
  import opened Collect
  import opened Replay
  import opened Ledger

  /** A prepared application: the record to write and the input bytes it lists. */
  datatype Prepared = Prepared(operation: Id, targets: set<Id>, record: Record, records: map<Id, InputRecord>,
                               authority: Id, source: Digest, fence: Id)

  function ScopeOf(p: Prepared): Digest {
    p.record.meta.scopeDigest
  }

  function Revision(db: Db, s: Digest): nat {
    if s in db.frontiers then db.frontiers[s].revision else 0
  }

  function FrontierDigest(db: Db, s: Digest): Digest {
    if s in db.frontiers then db.frontiers[s].digest else 0
  }

  // ---------------------------------------------------------------- the transaction's effect

  function NewRow(h: Hasher, p: Prepared, x: Id): InputRow
    requires x in p.records
  {
    InputRow(p.records[x].inner, p.records[x].raw, h.base.input(p.records[x].raw), p.operation, p.record.meta.evidence)
  }

  function NewRows(h: Hasher, db: Db, p: Prepared): map<Id, InputRow> {
    map x | x in p.records && x !in Stored(db, ScopeOf(p)) :: NewRow(h, p, x)
  }

  function EventOf(h: Hasher, p: Prepared): EventRow {
    var m := p.record.meta;
    EventRow(m.scopeDigest, m.revision, m.requestDigest, m.previousDigest, p.record, h.record(p.record))
  }

  function Applied(h: Hasher, db: Db, p: Prepared): Db
    requires p.record.meta.reservation in db.nonces
  {
    var s, n := ScopeOf(p), p.record.meta.reservation;
    Db(db.inputs[s := Stored(db, s) + NewRows(h, db, p)],
       db.events[p.operation := EventOf(h, p)],
       db.frontiers[s := FrontierOf(p.operation, EventOf(h, p))],
       db.nonces[n := db.nonces[n].(usedBy := Some(p.operation))])
  }

  /** The stored bytes of a record's inputs are the record's. */
  ghost predicate KeepsRows(rows: map<Id, InputRow>, records: map<Id, InputRecord>) {
    forall x :: x in rows ==> x in records && rows[x].inner == records[x].inner && rows[x].raw == records[x].raw
  }

  /** What a prepared application must satisfy against the store it is committed to. */
  ghost predicate Fits(h: Hasher, generation: Id, db: Db, p: Prepared) {
    var m := p.record.meta;
    var s := ScopeOf(p);
    && p.operation !in db.events && Bound(h, generation, p.operation, EventOf(h, p))
    && Revision(db, s) == m.expectedRevision && FrontierDigest(db, s) == m.previousDigest
    && (s in db.frontiers ==> db.frontiers[s].evidence == m.evidence)
    && m.recording.inputs == RefsOf(h.base, p.records)
    && Stored(db, s).Keys < p.records.Keys
    && m.reservation in db.nonces
    && db.nonces[m.reservation] == NonceRow(s, m.keyContext, p.record.nonce, m.requestDigest, None)
  }

  /** ... and the rows already stored are the record's, which `commit` compares one by one. */
  ghost predicate Ready(h: Hasher, generation: Id, db: Db, p: Prepared) {
    Fits(h, generation, db, p) && KeepsRows(Stored(db, ScopeOf(p)), p.records)
  }

  lemma {:induction false} ReadyBasics(h: Hasher, generation: Id, db: Db, p: Prepared)
    requires Ready(h, generation, db, p)
    ensures p.record.meta.reservation in db.nonces && db.nonces[p.record.meta.reservation].usedBy.None?
    ensures p.operation !in db.events && KeepsRows(Stored(db, ScopeOf(p)), p.records)
    ensures Revision(db, ScopeOf(p)) + 1 == p.record.meta.revision <= MAX_EVENTS
  {
  }

  // ---------------------------------------------------------------- audit is inductive

  /** How the tables change, row by row. */
  lemma {:induction false} AppliedRows(h: Hasher, db: Db, p: Prepared)
    requires p.record.meta.reservation in db.nonces && p.operation !in db.events
    requires KeepsRows(Stored(db, ScopeOf(p)), p.records)
    ensures var db', s := Applied(h, db, p), ScopeOf(p);
            && db'.events.Keys == db.events.Keys + {p.operation} && db'.events[p.operation] == EventOf(h, p)
            && (forall q :: q in db.events ==> db'.events[q] == db.events[q])
            && (forall t :: t != s ==> Stored(db', t) == Stored(db, t))
            && Stored(db', s).Keys == p.records.Keys
            && (forall x :: x in Stored(db, s) ==> Stored(db', s)[x] == Stored(db, s)[x])
            && (forall x :: x in p.records && x !in Stored(db, s) ==> Stored(db', s)[x] == NewRow(h, p, x))
            && db'.inputs.Keys == db.inputs.Keys + {s}
  {
  }

  /** The new event continues the chain of its scope. */
  lemma {:induction false} NewFollows(h: Hasher, generation: Id, db: Db, p: Prepared)
    requires Audited(h, generation, db) && Constraints(db) && Ready(h, generation, db, p)
    ensures var s := ScopeOf(p);
            if s in db.frontiers then
              && FrontierOk(db, s) && Follows(db.events[db.frontiers[s].operation], EventOf(h, p))
              && p.record.meta.revision > 1
            else p.record.meta.revision == 1 && p.record.meta.previousDigest == 0
  {
    StoredAreLast(h, generation, db, ScopeOf(p));
    assert RefsOf(h.base, p.records).Keys == p.records.Keys;
    if ScopeOf(p) in db.frontiers {
      assert EventOk(h, generation, db, db.frontiers[ScopeOf(p)].operation);
    }
    hide Audited;
    hide Constraints;
    hide IsLast;
    hide RefsOf;
  }

  /** Every event of the scope comes before the new one. */
  lemma {:induction false} NewIsLatest(h: Hasher, generation: Id, db: Db, p: Prepared)
    requires Audited(h, generation, db) && Constraints(db) && Ready(h, generation, db, p)
    ensures forall q :: q in db.events && db.events[q].scope == ScopeOf(p) ==> db.events[q].revision < p.record.meta.revision
    ensures Chained(Applied(h, db, p), EventOf(h, p))
  {
    NewFollows(h, generation, db, p);
    hide Constraints;
    hide EventOk;
    hide KeepsRows;
    hide Bound;
    hide NewRows;
    var s, e := ScopeOf(p), EventOf(h, p);
    if s in db.frontiers {
      var last := db.frontiers[s].operation;
      assert Applied(h, db, p).events[last] == db.events[last];
    }
  }

  lemma {:induction false} NewInputHeld(h: Hasher, generation: Id, db: Db, p: Prepared, x: Id)
    requires Audited(h, generation, db) && Constraints(db) && Ready(h, generation, db, p) && x in InputsOf(EventOf(h, p))
    ensures InputHeld(h, Applied(h, db, p), EventOf(h, p), x)
    ensures FirstSeen(Applied(h, db, p), EventOf(h, p), x) ==>
              Stored(Applied(h, db, p), ScopeOf(p))[x].firstEvent == p.operation
  {
    var s, db' := ScopeOf(p), Applied(h, db, p);
    StoredAreLast(h, generation, db, s);
    NewIsLatest(h, generation, db, p);
    AppliedRows(h, db, p);
    hide Applied;
    hide Constraints;
    hide Chained;
    hide Bound;
    assert x in p.records;
    if x in Stored(db, s) {
      assert FrontierOk(db, s);
      var last := db.frontiers[s].operation;
      assert EventOk(h, generation, db, last) && InputHeld(h, db, db.events[last], x);
      assert db'.events[last] == db.events[last];
    }
  }

  lemma {:induction false} NewEventOk(h: Hasher, generation: Id, db: Db, p: Prepared)
    requires Audited(h, generation, db) && Constraints(db) && Ready(h, generation, db, p)
    ensures EventOk(h, generation, Applied(h, db, p), p.operation)
  {
    NewIsLatest(h, generation, db, p);
    hide Audited;
    hide Constraints;
    hide Chained;
    hide Parses;
    hide FirstSeen;
    hide InputHeld;
    hide KeepsRows;
    hide NewRows;
    forall x | x in InputsOf(EventOf(h, p))
      ensures InputHeld(h, Applied(h, db, p), EventOf(h, p), x)
      ensures FirstSeen(Applied(h, db, p), EventOf(h, p), x) ==>
                Stored(Applied(h, db, p), ScopeOf(p))[x].firstEvent == p.operation
    {
      NewInputHeld(h, generation, db, p, x);
    }
  }

  lemma {:induction false} OldInputHeld(h: Hasher, db: Db, p: Prepared, e: EventRow, x: Id)
    requires p.record.meta.reservation in db.nonces && p.operation !in db.events
    requires KeepsRows(Stored(db, ScopeOf(p)), p.records)
    requires x in InputsOf(e) && InputHeld(h, db, e, x)
    ensures InputHeld(h, Applied(h, db, p), e, x)
    ensures Stored(Applied(h, db, p), e.scope)[x] == Stored(db, e.scope)[x]
    ensures FirstSeen(Applied(h, db, p), e, x) ==> FirstSeen(db, e, x)
  {
    AppliedRows(h, db, p);
    hide Applied;
  }

  lemma {:induction false} OldEventOk(h: Hasher, generation: Id, db: Db, p: Prepared, op: Id)
    requires Audited(h, generation, db) && Ready(h, generation, db, p) && op in db.events
    ensures EventOk(h, generation, Applied(h, db, p), op)
  {
    var e, db' := db.events[op], Applied(h, db, p);
    assert EventOk(h, generation, db, op);
    hide Audited;
    hide Parses;
    hide NewRows;
    forall x | x in InputsOf(e)
      ensures InputHeld(h, db', e, x)
      ensures FirstSeen(db', e, x) ==> Stored(db', e.scope)[x].firstEvent == op
    {
      OldInputHeld(h, db, p, e, x);
    }
    hide InputHeld;
    hide FirstSeen;
    hide KeepsRows;
    assert Chained(db', e) by {
      if e.revision != 1 {
        var q :| q in db.events && Follows(db.events[q], e);
        assert db'.events[q] == db.events[q];
      }
    }
  }

  lemma {:induction false} NewInputListed(h: Hasher, generation: Id, db: Db, p: Prepared, t: Digest, x: Id)
    requires InputsListed(db) && Ready(h, generation, db, p) && t in Applied(h, db, p).inputs && x in Applied(h, db, p).inputs[t]
    ensures InputListed(Applied(h, db, p), t, x)
  {
    AppliedRows(h, db, p);
    assert Applied(h, db, p).inputs[t] == Stored(Applied(h, db, p), t);
    hide Applied;
    hide Bound;
    var db' := Applied(h, db, p);
    if t == ScopeOf(p) {
      assert x in InputsOf(db'.events[p.operation]);
    } else {
      assert InputListed(db, t, x);
      var op :| op in db.events && db.events[op].scope == t && x in InputsOf(db.events[op]);
      assert db'.events[op] == db.events[op];
    }
  }

  lemma {:induction false} NewInputsListed(h: Hasher, generation: Id, db: Db, p: Prepared)
    requires InputsListed(db) && Ready(h, generation, db, p)
    ensures InputsListed(Applied(h, db, p))
  {
    forall t, x | t in Applied(h, db, p).inputs && x in Applied(h, db, p).inputs[t]
      ensures InputListed(Applied(h, db, p), t, x)
    {
      NewInputListed(h, generation, db, p, t, x);
    }
    hide Applied;
    hide InputListed;
  }

  lemma {:induction false} NewFrontiersOk(h: Hasher, db: Db, p: Prepared)
    requires FrontiersOk(db) && NoncesOk(db) && p.record.meta.reservation in db.nonces && p.operation !in db.events
    requires forall q :: q in db.events && db.events[q].scope == ScopeOf(p) ==> db.events[q].revision < p.record.meta.revision
    ensures FrontiersOk(Applied(h, db, p)) && NoncesOk(Applied(h, db, p))
  {
    hide NewRows;
    hide FrontierOk;
    forall t | t in Applied(h, db, p).frontiers
      ensures FrontierOk(Applied(h, db, p), t)
    {
      NewFrontierOk(h, db, p, t);
    }
  }

  lemma {:induction false} NewFrontierOk(h: Hasher, db: Db, p: Prepared, t: Digest)
    requires FrontiersOk(db) && p.record.meta.reservation in db.nonces && p.operation !in db.events
    requires forall q :: q in db.events && db.events[q].scope == ScopeOf(p) ==> db.events[q].revision < p.record.meta.revision
    requires t in Applied(h, db, p).frontiers
    ensures FrontierOk(Applied(h, db, p), t)
  {
    hide NewRows;
    hide InputListed;
    if t != ScopeOf(p) {
      assert FrontierOk(db, t);
    }
  }

  lemma {:induction false} NewInners(h: Hasher, generation: Id, db: Db, p: Prepared, t: Digest)
    requires Ready(h, generation, db, p) && t in Applied(h, db, p).inputs
    requires t in db.inputs ==> OneEnvelopePerInner(db.inputs[t])
    ensures OneEnvelopePerInner(Applied(h, db, p).inputs[t])
  {
    if t == ScopeOf(p) {
      AppliedRows(h, db, p);
      var rows := Stored(Applied(h, db, p), t);
      assert rows == Applied(h, db, p).inputs[t];
      var inputs := p.record.meta.recording.inputs;
      hide Applied;
      assert forall x :: x in rows ==> x in inputs && rows[x].inner == inputs[x].inner;
    }
  }

  lemma {:induction false} NewConstraints(h: Hasher, generation: Id, db: Db, p: Prepared)
    requires Audited(h, generation, db) && Constraints(db) && Ready(h, generation, db, p)
    ensures Constraints(Applied(h, db, p))
  {
    NewIsLatest(h, generation, db, p);
    forall t | t in Applied(h, db, p).inputs
      ensures OneEnvelopePerInner(Applied(h, db, p).inputs[t])
    {
      NewInners(h, generation, db, p, t);
    }
    hide EventOk;
    hide Chained;
    hide NewRows;
    hide KeepsRows;
    hide OneEnvelopePerInner;
    hide Bound;
    hide FrontierOk;
    hide InputListed;
    var db' := Applied(h, db, p);
    assert forall a, b :: a in db'.events && b in db'.events && SamePlace(db'.events[a], db'.events[b]) ==> a == b;
  }

  /**
   The audit is inductive: committing what was prepared for an audited store leaves a
   store that the audit accepts, with all constraints intact. The audit that `commit` runs
   before COMMIT is not used.
   */
  lemma {:induction false} CommitKeepsAudit(h: Hasher, generation: Id, db: Db, p: Prepared)
    requires Audited(h, generation, db) && Constraints(db) && Ready(h, generation, db, p)
    ensures Audited(h, generation, Applied(h, db, p)) && Constraints(Applied(h, db, p))
  {
    forall op | op in Applied(h, db, p).events
      ensures EventOk(h, generation, Applied(h, db, p), op)
    {
      if op == p.operation {
        NewEventOk(h, generation, db, p);
      } else {
        OldEventOk(h, generation, db, p, op);
      }
    }
    NewInputsListed(h, generation, db, p);
    NewIsLatest(h, generation, db, p);
    NewFrontiersOk(h, db, p);
    NewConstraints(h, generation, db, p);
    hide EventOk;
    hide InputsListed;
    hide FrontiersOk;
    hide NoncesOk;
    hide Constraints;
    hide Ready;
    hide Chained;
    hide Applied;
  }
}
