/**
 The application ledger: tables of `product/wp04/application-schema.sql`, the structural
 audit of `product/wp04/application_schema.py` and the inserts of `commit`.
 */
module Ledger {
  import opened Ordering
  import opened Collect
  import opened Replay

  const MAX_EVENTS := 64
  const MAX_LIST := 128

  datatype Evidence = Candidate | CoreValidated

  /** Event metadata; canonical encoding is taken as the identity on parsed values. */
  datatype Metadata = Metadata(
    generation: Id, scope: Id, scopeDigest: Digest, operation: Id, requestDigest: Digest,
    expectedRevision: nat, revision: nat, previousDigest: Digest, engine: Id, evidence: Evidence,
    recording: Recording, authority: Id, certificateDigest: Digest, reservation: Id, keyContext: Digest)

  datatype Record = Record(meta: Metadata, nonce: Id, ciphertext: Id)

  datatype EventRow = EventRow(scope: Digest, revision: nat, requestDigest: Digest, previousDigest: Digest,
                               record: Record, digest: Digest)
  datatype InputRow = InputRow(inner: Id, raw: Raw, digest: Digest, firstEvent: Id, evidence: Evidence)
  datatype FrontierRow = FrontierRow(revision: nat, operation: Id, digest: Digest, heads: set<Id>, evidence: Evidence)
  datatype NonceRow = NonceRow(scope: Digest, keyContext: Digest, nonce: Id, requestDigest: Digest, usedBy: Option<Id>)

  /** The four tables by primary key. */
  datatype Db = Db(inputs: map<Digest, map<Id, InputRow>>, events: map<Id, EventRow>,
                   frontiers: map<Digest, FrontierRow>, nonces: map<Id, NonceRow>)

  /** The input rows of a scope, by envelope. */
  function Stored(db: Db, s: Digest): map<Id, InputRow> {
    if s in db.inputs then db.inputs[s] else map[]
  }

  /** One application request as the caller names it; `scope` is the applier's. */
  datatype Intent = Intent(scope: Id, operation: Id, targets: set<Id>, expectedRevision: nat)

  datatype Hasher = Hasher(base: Hashing, record: Record -> Digest, scope: Id -> Digest, intent: Intent -> Digest)

  /** UNIQUE(scope,revision), UNIQUE(scope,inner_id) and UNIQUE(used_by). */
  ghost predicate Constraints(db: Db) {
    && (forall a, b :: a in db.events && b in db.events && SamePlace(db.events[a], db.events[b]) ==> a == b)
    && (forall s :: s in db.inputs ==> OneEnvelopePerInner(db.inputs[s]))
    && (forall a, b :: a in db.nonces && b in db.nonces && SameUser(db.nonces[a], db.nonces[b]) ==> a == b)
  }

  ghost predicate OneEnvelopePerInner(rows: map<Id, InputRow>) {
    forall x, y :: x in rows && y in rows && rows[x].inner == rows[y].inner ==> x == y
  }

  predicate SameUser(a: NonceRow, b: NonceRow) {
    a.usedBy.Some? && a.usedBy == b.usedBy
  }

  predicate SamePlace(a: EventRow, b: EventRow) {
    a.scope == b.scope && a.revision == b.revision
  }

  function InputsOf(e: EventRow): map<Id, InputRef> {
    e.record.meta.recording.inputs
  }

  // ---------------------------------------------------------------- what the audit establishes

  /** `parse_record`. */
  ghost predicate Parses(h: Hasher, m: Metadata) {
    var r := m.recording;
    && 1 <= m.revision <= MAX_EVENTS && m.expectedRevision == m.revision - 1
    && h.scope(m.scope) == m.scopeDigest
    && |r.heads| <= MAX_LIST && |r.targets| <= MAX_LIST && 1 <= |r.inputs| <= MAX_LIST
    && (forall x, y :: x in r.inputs && y in r.inputs && r.inputs[x].inner == r.inputs[y].inner ==> x == y)
    && r.heads <= (set x | x in r.inputs :: r.inputs[x].inner)
    && r.targets <= r.inputs.Keys
  }

  /** An event row agrees with its own record. */
  ghost predicate Bound(h: Hasher, generation: Id, op: Id, e: EventRow) {
    var m := e.record.meta;
    && h.record(e.record) == e.digest && Parses(h, m)
    && m.generation == generation && m.scopeDigest == e.scope && m.operation == op && m.revision == e.revision
    && m.requestDigest == e.requestDigest && m.previousDigest == e.previousDigest
  }

  ghost predicate InputHeld(h: Hasher, db: Db, e: EventRow, x: Id)
    requires x in InputsOf(e)
  {
    && x in Stored(db, e.scope)
    && var r := Stored(db, e.scope)[x];
       r.inner == InputsOf(e)[x].inner && h.base.input(r.raw) == r.digest == InputsOf(e)[x].digest
       && r.evidence == e.record.meta.evidence
  }

  ghost predicate NonceLinked(db: Db, op: Id, e: EventRow) {
    var m := e.record.meta;
    m.reservation in db.nonces &&
    db.nonces[m.reservation] == NonceRow(e.scope, m.keyContext, e.record.nonce, e.requestDigest, Some(op))
  }

  /** `p` is the row just before `e` in the chain of its scope. */
  ghost predicate Follows(p: EventRow, e: EventRow) {
    && p.scope == e.scope && e.revision == p.revision + 1 && e.previousDigest == p.digest
    && p.record.meta.evidence == e.record.meta.evidence && InputsOf(p).Keys < InputsOf(e).Keys
  }

  ghost predicate Chained(db: Db, e: EventRow) {
    if e.revision == 1 then e.previousDigest == 0
    else exists p :: p in db.events && Follows(db.events[p], e)
  }

  /** No earlier event of the scope lists `x`. */
  ghost predicate FirstSeen(db: Db, e: EventRow, x: Id) {
    forall q :: q in db.events && db.events[q].scope == e.scope && db.events[q].revision < e.revision ==>
      x !in InputsOf(db.events[q])
  }

  ghost predicate EventOk(h: Hasher, generation: Id, db: Db, op: Id)
    requires op in db.events
  {
    var e := db.events[op];
    && Bound(h, generation, op, e) && Chained(db, e) && NonceLinked(db, op, e)
    && (forall x :: x in InputsOf(e) ==> InputHeld(h, db, e, x))
    && (forall x :: x in InputsOf(e) && FirstSeen(db, e, x) ==> Stored(db, e.scope)[x].firstEvent == op)
  }

  ghost predicate IsLast(db: Db, op: Id)
    requires op in db.events
  {
    forall q :: q in db.events && db.events[q].scope == db.events[op].scope ==> db.events[q].revision <= db.events[op].revision
  }

  function FrontierOf(op: Id, e: EventRow): FrontierRow {
    FrontierRow(e.revision, op, e.digest, e.record.meta.recording.heads, e.record.meta.evidence)
  }

  /** A frontier row repeats what the event's own record says. */
  ghost predicate FrontierTells(f: FrontierRow, op: Id, e: EventRow) {
    var m := e.record.meta;
    && f.operation == op && f.revision == e.revision && f.digest == e.digest
    && f.heads == m.recording.heads && f.evidence == m.evidence
  }

  ghost predicate InputListed(db: Db, s: Digest, x: Id) {
    exists op :: op in db.events && db.events[op].scope == s && x in InputsOf(db.events[op])
  }

  /** The row of a frontier names the last event of its scope. */
  ghost predicate FrontierOk(db: Db, s: Digest)
    requires s in db.frontiers
  {
    var op := db.frontiers[s].operation;
    op in db.events && db.events[op].scope == s && IsLast(db, op) && FrontierTells(db.frontiers[s], op, db.events[op])
  }

  ghost predicate InputsListed(db: Db) {
    forall s, x {:trigger InputListed(db, s, x)} :: s in db.inputs && x in db.inputs[s] ==> InputListed(db, s, x)
  }

  ghost predicate FrontiersOk(db: Db) {
    && (forall s {:trigger FrontierOk(db, s)} :: s in db.frontiers ==> FrontierOk(db, s))
    && (forall op :: op in db.events ==> db.events[op].scope in db.frontiers)
  }

  ghost predicate NoncesOk(db: Db) {
    forall n :: n in db.nonces && db.nonces[n].usedBy.Some? ==> db.nonces[n].usedBy.value in db.events
  }

  /** The whole-ledger invariant, without reference to the order in which rows are read. */
  ghost predicate Audited(h: Hasher, generation: Id, db: Db) {
    && (forall op {:trigger EventOk(h, generation, db, op)} :: op in db.events ==> EventOk(h, generation, db, op))
    && InputsListed(db) && FrontiersOk(db) && NoncesOk(db)
  }

  lemma {:induction false} HeadsAreRecorded(h: Hasher, m: Metadata)
    requires Parses(h, m)
    ensures forall k :: k in m.recording.heads ==> exists x :: x in m.recording.inputs && m.recording.inputs[x].inner == k
  {
    var inners := set x | x in m.recording.inputs :: m.recording.inputs[x].inner;
    assert m.recording.heads <= inners;
  }

  /** The stored frontier of a scope is its last event, field by field; its heads are hashes of recorded inputs. */
  lemma {:induction false} FrontierIsLastEvent(h: Hasher, generation: Id, db: Db, s: Digest)
    requires Audited(h, generation, db) && s in db.frontiers
    ensures db.frontiers[s].operation in db.events
    ensures var f := db.frontiers[s];
            var e := db.events[f.operation];
            && e.scope == s && (forall q :: q in db.events && db.events[q].scope == s ==> db.events[q].revision <= e.revision)
            && f.revision == e.revision == e.record.meta.revision && f.digest == e.digest == h.record(e.record)
            && f.heads == e.record.meta.recording.heads && f.evidence == e.record.meta.evidence
    ensures var inputs := db.events[db.frontiers[s].operation].record.meta.recording.inputs;
            forall k :: k in db.frontiers[s].heads ==> exists x :: x in inputs && inputs[x].inner == k
  {
    assert FrontierOk(db, s);
    var e := db.events[db.frontiers[s].operation];
    assert Bound(h, generation, db.frontiers[s].operation, e) by {
      assert EventOk(h, generation, db, db.frontiers[s].operation);
    }
    HeadsAreRecorded(h, e.record.meta);
  }

  // ---------------------------------------------------------------- chains

  lemma {:induction false} PredecessorOf(h: Hasher, generation: Id, db: Db, op: Id) returns (p: Id)
    requires Audited(h, generation, db) && op in db.events && db.events[op].revision > 1
    ensures p in db.events && Follows(db.events[p], db.events[op])
  {
    assert EventOk(h, generation, db, op);
    p :| p in db.events && Follows(db.events[p], db.events[op]);
  }

  /** Later events of a scope list every input of earlier ones, under one evidence class. */
  lemma {:induction false} InputsGrow(h: Hasher, generation: Id, db: Db, a: Id, b: Id)
    requires Audited(h, generation, db) && Constraints(db) && a in db.events && b in db.events
    requires db.events[a].scope == db.events[b].scope && db.events[a].revision <= db.events[b].revision
    ensures InputsOf(db.events[a]).Keys <= InputsOf(db.events[b]).Keys
    ensures db.events[a].record.meta.evidence == db.events[b].record.meta.evidence
    decreases db.events[b].revision
  {
    assert EventOk(h, generation, db, a);
    if db.events[a].revision < db.events[b].revision {
      var p := PredecessorOf(h, generation, db, b);
      InputsGrow(h, generation, db, a, p);
    } else {
      assert SamePlace(db.events[a], db.events[b]);
    }
  }

  /** The stored inputs of a scope are exactly those of its last event. */
  lemma {:induction false} StoredAreLast(h: Hasher, generation: Id, db: Db, s: Digest)
    requires Audited(h, generation, db) && Constraints(db)
    ensures s !in db.frontiers ==> Stored(db, s) == map[]
    ensures s in db.frontiers ==> FrontierOk(db, s) && Stored(db, s).Keys == InputsOf(db.events[db.frontiers[s].operation]).Keys
  {
    hide Constraints;
    forall x | x in Stored(db, s)
      ensures s in db.frontiers && FrontierOk(db, s) && x in InputsOf(db.events[db.frontiers[s].operation])
    {
      assert InputListed(db, s, x);
      var op :| op in db.events && db.events[op].scope == s && x in InputsOf(db.events[op]);
      assert FrontierOk(db, s);
      InputsGrow(h, generation, db, op, db.frontiers[s].operation);
    }
    if s in db.frontiers {
      assert FrontierOk(db, s);
      var last := db.frontiers[s].operation;
      assert EventOk(h, generation, db, last);
      forall x | x in InputsOf(db.events[last])
        ensures x in Stored(db, s)
      {
        assert InputHeld(h, db, db.events[last], x);
      }
    }
  }
}
