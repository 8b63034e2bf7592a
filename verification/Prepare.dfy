/** `prepare`: from an audited store and a collectable request to a value that fits a commit. */
module Prepare {
  import opened Ordering
  import opened Contracts
  import opened Selection
  import opened CausalCheck
  import opened Collect
  import opened Replay
  import opened Ledger
  import opened Commit

  /** What the surroundings contribute to one preparation. */
  datatype Setting = Setting(auth: Authority, external: map<Id, Raw>, engine: Id, evidence: Evidence,
                             reservation: Id, nonce: Id, keyContext: Digest, ciphertext: Id,
                             authority: Id, certificateDigest: Digest, source: Digest, fence: Id)

  function RawInputs(db: Db, s: Digest): map<Id, Raw> {
    map x | x in Stored(db, s) :: Stored(db, s)[x].raw
  }

  /** `_intent`'s own checks. */
  predicate IntentOk(i: Intent) {
    1 <= |i.targets| <= MAX_INPUTS && i.expectedRevision < MAX_EVENTS
  }

  ghost predicate Preparable(h: Hasher, db: Db, i: Intent, e: Setting) {
    var s := h.scope(i.scope);
    && IntentOk(i) && i.operation !in db.events && Revision(db, s) == i.expectedRevision
    && (s in db.frontiers ==> db.frontiers[s].evidence == e.evidence)
    && Collectable(e.auth, e.external, RawInputs(db, s), i.targets)
    && e.reservation !in db.nonces
  }

  /** The nonce reservation, committed on its own before anything is encrypted. */
  function Reserved(h: Hasher, db: Db, i: Intent, e: Setting): Db {
    db.(nonces := db.nonces[e.reservation := NonceRow(h.scope(i.scope), e.keyContext, e.nonce, h.intent(i), None)])
  }

  function MetadataFor(h: Hasher, generation: Id, db: Db, i: Intent, e: Setting, c: Collected): Metadata {
    var s := h.scope(i.scope);
    Metadata(generation, i.scope, s, i.operation, h.intent(i), i.expectedRevision, i.expectedRevision + 1,
             FrontierDigest(db, s), e.engine, e.evidence, RecordingOf(h.base, c, i.targets),
             e.authority, e.certificateDigest, e.reservation, e.keyContext)
  }

  function PreparedFrom(h: Hasher, generation: Id, db: Db, i: Intent, e: Setting, c: Collected): Prepared {
    Prepared(i.operation, i.targets, Record(MetadataFor(h, generation, db, i, e, c), e.nonce, e.ciphertext),
             c.records, e.authority, e.source, e.fence)
  }

  ghost function PreparedOf(h: Hasher, generation: Id, db: Db, i: Intent, e: Setting): Prepared
    requires Preparable(h, db, i, e)
  {
    PreparedFrom(h, generation, db, i, e, Gathered(e.auth, e.external, RawInputs(db, h.scope(i.scope)), i.targets))
  }

  // ---------------------------------------------------------------- the record of a preparation

  /** A prepared record names the intent, the store's frontier, the surroundings and exactly what was collected. */
  lemma {:induction false} PreparedRecords(h: Hasher, generation: Id, db: Db, i: Intent, e: Setting)
    requires Preparable(h, db, i, e)
    ensures var s := h.scope(i.scope);
            var p := PreparedOf(h, generation, db, i, e);
            var m := p.record.meta;
            && m.generation == generation && m.scope == i.scope && m.scopeDigest == s
            && m.operation == p.operation == i.operation && m.requestDigest == h.intent(i)
            && m.expectedRevision == i.expectedRevision && m.revision == i.expectedRevision + 1
            && m.previousDigest == (if s in db.frontiers then db.frontiers[s].digest else 0)
            && m.engine == e.engine && m.evidence == e.evidence && m.authority == p.authority == e.authority
            && m.certificateDigest == e.certificateDigest && m.reservation == e.reservation && m.keyContext == e.keyContext
            && p.record.nonce == e.nonce && p.record.ciphertext == e.ciphertext && p.source == e.source && p.fence == e.fence
            && m.recording.targets == p.targets == i.targets
    ensures var p := PreparedOf(h, generation, db, i, e);
            var m := p.record.meta.recording;
            var c := Gathered(e.auth, e.external, RawInputs(db, h.scope(i.scope)), i.targets);
            && m.heads == c.request.expectedHeads && m.requestDigest == h.base.request(c.request) && p.records == c.records
            && m.inputs.Keys == c.records.Keys
            && forall x :: x in m.inputs ==>
                 m.inputs[x].inner == c.records[x].inner && m.inputs[x].digest == h.base.input(c.records[x].raw)
  {
    hide Collectable;
    hide Gathered;
  }

  // ---------------------------------------------------------------- what collecting guarantees

  /** The facts about a collected request that its record relies on. */
  ghost predicate WellCollected(c: Collected, stored: map<Id, Raw>, targets: set<Id>) {
    && stored.Keys < c.records.Keys && targets <= c.records.Keys
    && (forall x :: x in stored ==> c.records[x].raw == stored[x])
    && 1 <= |c.records| <= MAX_LIST
    && (forall x, y :: x in c.records && y in c.records && c.records[x].inner == c.records[y].inner ==> x == y)
    && |c.request.expectedHeads| <= MAX_LIST
    && (forall k :: k in c.request.expectedHeads ==> exists x :: x in c.records && c.records[x].inner == k)
  }

  lemma {:induction false} HeadsFit(p: Pool, ids: seq<Id>)
    requires (forall e :: e in ids ==> e in p.changes) && Distinct(ids)
    ensures |Heads(p, ids)| <= |ids|
    ensures forall k :: k in Heads(p, ids) ==> exists x :: x in ids && p.changes[x].inner == k
  {
    HashesFit(p, ids);
    SubsetSize(Heads(p, ids), Hashes(p, ids));
  }

  lemma {:induction false} HashesFit(p: Pool, ids: seq<Id>)
    requires forall e :: e in ids ==> e in p.changes
    ensures |Hashes(p, ids)| <= |ids|
  {
    if ids == [] {
      assert Hashes(p, ids) == {};
    } else {
      var n := |ids| - 1;
      assert ids == ids[..n] + [ids[n]];
      HashesFit(p, ids[..n]);
      assert Hashes(p, ids) == Hashes(p, ids[..n]) + {p.changes[ids[n]].inner};
    }
  }

  lemma {:induction false} SelectedWell(p: Pool, raw: map<Id, Raw>, ids: seq<Id>, stored: map<Id, Raw>, targets: set<Id>)
    requires Selected(p, targets + stored.Keys, ids) && p.changes.Keys == raw.Keys && !(targets <= stored.Keys)
    requires forall x :: x in stored ==> x in raw && raw[x] == stored[x]
    ensures WellCollected(Collected(RequestOf(p, ids), RecordsOf(p, raw, ids)), stored, targets)
  {
    hide Select;
    hide ParentsEarlier;
    hide Heads;
    var records := RecordsOf(p, raw, ids);
    assert records.Keys == Elems(ids);
    assert |records| == |records.Keys|;
    DistinctSize(ids);
    HeadsFit(p, ids);
    var t :| t in targets && t !in stored;
    assert t in records;
    forall k | k in Heads(p, ids)
      ensures exists x :: x in records && records[x].inner == k
    {
      var x :| x in ids && p.changes[x].inner == k;
      assert x in records;
    }
  }

  lemma {:induction false} CollectedWell(auth: Authority, external: map<Id, Raw>, inputs: map<Id, Raw>, targets: set<Id>)
    requires Collectable(auth, external, inputs, targets)
    ensures WellCollected(Gathered(auth, external, inputs, targets), inputs, targets)
    ensures var records := Gathered(auth, external, inputs, targets).records;
            forall x :: x in records ==>
              auth.open(x, records[x].raw).Some? && auth.open(x, records[x].raw).value.inner == records[x].inner
  {
    hide CausallySound;
    hide Select;
    hide ParentsEarlier;
    hide Total;
    hide Order;
    hide RequestOf;
    hide WellCollected;
    hide ValidPool;
    var raw := external + inputs;
    var p := Opened(auth, raw);
    SelectedWell(p, raw, Order(p, targets + inputs.Keys), inputs, targets);
  }

  // ---------------------------------------------------------------- prepared values fit

  lemma {:induction false} PreparedParses(h: Hasher, generation: Id, db: Db, i: Intent, e: Setting, c: Collected)
    requires IntentOk(i) && WellCollected(c, RawInputs(db, h.scope(i.scope)), i.targets)
    ensures Parses(h, MetadataFor(h, generation, db, i, e, c))
  {
    var refs := RefsOf(h.base, c.records);
    assert refs.Keys == c.records.Keys;
    assert |refs| == |refs.Keys| && |c.records| == |c.records.Keys|;
    forall k | k in c.request.expectedHeads
      ensures k in (set x | x in refs :: refs[x].inner)
    {
      var x :| x in c.records && c.records[x].inner == k;
      assert refs[x].inner == k;
    }
  }

  /**
   What `prepare` returns fits the store it was prepared on: chain position, previous
   digest, one evidence class, strictly more inputs than stored, and an unused reservation.
   */
  lemma {:induction false} PreparedFits(h: Hasher, generation: Id, db: Db, i: Intent, e: Setting)
    requires Preparable(h, db, i, e)
    ensures Fits(h, generation, Reserved(h, db, i, e), PreparedOf(h, generation, db, i, e))
  {
    hide Collectable;
    hide Gathered;
    var s := h.scope(i.scope);
    var c := Gathered(e.auth, e.external, RawInputs(db, s), i.targets);
    CollectedWell(e.auth, e.external, RawInputs(db, s), i.targets);
    PreparedParses(h, generation, db, i, e, c);
    hide Parses;
    assert RawInputs(db, s).Keys == Stored(db, s).Keys;
    assert Stored(Reserved(h, db, i, e), s) == Stored(db, s);
  }

  /** Reserving a nonce keeps the audit. */
  lemma {:induction false} ReserveKeepsAudit(h: Hasher, generation: Id, db: Db, i: Intent, e: Setting)
    requires Audited(h, generation, db) && Constraints(db) && e.reservation !in db.nonces
    ensures Audited(h, generation, Reserved(h, db, i, e)) && Constraints(Reserved(h, db, i, e))
  {
    hide EventOk;
    hide FrontierOk;
    hide InputListed;
    hide OneEnvelopePerInner;
    var db' := Reserved(h, db, i, e);
    forall op | op in db'.events
      ensures EventOk(h, generation, db', op)
    {
      ReserveKeepsEvent(h, generation, db, i, e, op);
    }
    forall s | s in db'.frontiers
      ensures FrontierOk(db', s)
    {
      assert FrontierOk(db, s);
      SameFrontier(db, db', s);
    }
    forall s, x | s in db'.inputs && x in db'.inputs[s]
      ensures InputListed(db', s, x)
    {
      assert InputListed(db, s, x);
      SameListing(db, db', s, x);
    }
  }

  lemma {:induction false} SameFrontier(db: Db, db': Db, s: Digest)
    requires s in db.frontiers && FrontierOk(db, s) && db'.events == db.events && db'.frontiers == db.frontiers
    ensures FrontierOk(db', s)
  {
  }

  lemma {:induction false} SameListing(db: Db, db': Db, s: Digest, x: Id)
    requires InputListed(db, s, x) && db'.events == db.events
    ensures InputListed(db', s, x)
  {
  }

  lemma {:induction false} ReserveKeepsEvent(h: Hasher, generation: Id, db: Db, i: Intent, e: Setting, op: Id)
    requires Audited(h, generation, db) && e.reservation !in db.nonces && op in db.events
    ensures EventOk(h, generation, Reserved(h, db, i, e), op)
  {
    var db', row := Reserved(h, db, i, e), db.events[op];
    assert EventOk(h, generation, db, op);
    hide Audited;
    hide Bound;
    assert Chained(db', row) by {
      if row.revision != 1 {
        var q :| q in db.events && Follows(db.events[q], row);
        assert db'.events[q] == db.events[q];
      }
    }
    forall x | x in InputsOf(row)
      ensures InputHeld(h, db', row, x)
      ensures FirstSeen(db', row, x) ==> FirstSeen(db, row, x)
    {
      assert InputHeld(h, db, row, x);
      assert Stored(db', row.scope) == Stored(db, row.scope);
    }
  }

  /** With stored bytes that open to their recorded hashes, a prepared value is ready to commit. */
  lemma {:induction false} PreparedIsReady(h: Hasher, generation: Id, db: Db, i: Intent, e: Setting)
    requires Preparable(h, db, i, e)
    requires var s := h.scope(i.scope);
             forall x :: x in Stored(db, s) ==>
               e.auth.open(x, Stored(db, s)[x].raw).Some? && e.auth.open(x, Stored(db, s)[x].raw).value.inner == Stored(db, s)[x].inner
    ensures Ready(h, generation, Reserved(h, db, i, e), PreparedOf(h, generation, db, i, e))
  {
    hide Fits;
    hide Collectable;
    hide Gathered;
    hide Parses;
    var s := h.scope(i.scope);
    var c := Gathered(e.auth, e.external, RawInputs(db, s), i.targets);
    PreparedFits(h, generation, db, i, e);
    CollectedWell(e.auth, e.external, RawInputs(db, s), i.targets);
    RowsKept(e.auth, Stored(db, s), c, i.targets);
    assert Stored(Reserved(h, db, i, e), s) == Stored(db, s);
    hide WellCollected;
    hide KeepsRows;
  }

  lemma {:induction false} RowsKept(auth: Authority, rows: map<Id, InputRow>, c: Collected, targets: set<Id>)
    requires WellCollected(c, map x | x in rows :: rows[x].raw, targets)
    requires forall x :: x in c.records ==>
               auth.open(x, c.records[x].raw).Some? && auth.open(x, c.records[x].raw).value.inner == c.records[x].inner
    requires forall x :: x in rows ==> auth.open(x, rows[x].raw).Some? && auth.open(x, rows[x].raw).value.inner == rows[x].inner
    ensures KeepsRows(rows, c.records)
  {
  }
}
