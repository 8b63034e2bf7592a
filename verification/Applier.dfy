/** `DocumentApplier`: inquiry, preparation and commit over a transactional store, with faults at every step. */
module Applier {
  import opened Ordering
  import opened Contracts
  import opened Collect
  import opened Replay
  import opened Ledger
  import opened Commit
  import opened Pins
  import opened Prepare
  import opened Tickets

  /** What `_result` reports of an event. */
  datatype Receipt = Receipt(operation: Id, revision: nat, heads: set<Id>, inputs: set<Id>, digest: Digest, validated: bool)

  function ReceiptOf(op: Id, e: EventRow): Receipt {
    var m := e.record.meta;
    Receipt(op, m.revision, m.recording.heads, m.recording.inputs.Keys, e.digest, m.evidence.CoreValidated?)
  }

  /** What a result says of the event it reports. */
  ghost predicate Tells(r: Receipt, op: Id, e: EventRow) {
    var m := e.record.meta;
    && r.operation == op && r.revision == m.revision && r.digest == e.digest
    && r.heads == m.recording.heads && (forall x :: x in r.inputs <==> x in m.recording.inputs)
    && (r.validated <==> m.evidence == CoreValidated)
  }

  /**
   Why a call failed other than with an unknown outcome. `SealRaised` and `PinReadRaised` are
   exceptions after a COMMIT that no handler sees: in the encryption that follows the nonce
   reservation of `prepare`, and in the read of the pin that ends `commit`.
   */
  datatype Refusal =
    | OutcomeUnknownBefore | InvalidIntent | OperationConflict | MaterializationInvalid | OperationAlreadyCommitted
    | StaleFrontier | ModeMismatch | NotCollectable(code: Code) | ForeignPrepared | GuardFailed | CoreIdentityChanged
    | CoreFailure | ResourceBudget | NonceReservationInvalid | ApplicationCorrupt | Aborted | SealRaised | PinReadRaised

  datatype Reply = Found(receipt: Receipt) | Absent | Issued(ticket: Prepared) | Failed(why: Refusal) | OutcomeUnknown

  /** The volatile part of one applier object. */
  datatype Session = Session(scope: Id, uncertain: bool, known: Option<Pin>, tickets: set<Prepared>)

  // ---------------------------------------------------------------- what each call may do

  /** An inquiry changes nothing but the remembered pin; it finds exactly the recorded event of this intent. */
  ghost predicate InquireStep(h: Hasher, generation: Id, db: Db, x: Session, i: Intent, x': Session, reply: Reply) {
    && x' == (if reply.Found? then x.(known := Some(PinOf(generation, db, h.scope(x.scope)))) else x)
    && (x.uncertain ==> reply == Failed(OutcomeUnknownBefore) && x' == x)
    && (reply.Found? ==> IntentRecorded(h, db, i) && Tells(reply.receipt, i.operation, db.events[i.operation]))
    && (reply == Absent ==> i.operation !in db.events)
    && !reply.Issued? && !reply.OutcomeUnknown? && (reply.Failed? ==> !reply.why.SealRaised? && !reply.why.PinReadRaised?)
  }

  ghost predicate IntentRecorded(h: Hasher, db: Db, i: Intent) {
    && i.operation in db.events && db.events[i.operation].scope == h.scope(i.scope)
    && db.events[i.operation].requestDigest == h.intent(i)
  }

  /**
   A preparation issues a ticket against its reservation, fails, or leaves the outcome open.
   A failure has no effect, except that one after the reservation's COMMIT leaves the reservation.
   */
  ghost predicate PrepareStep(h: Hasher, generation: Id, db: Db, x: Session, i: Intent, e: Setting,
                              db': Db, x': Session, reply: Reply) {
    match reply
    case Issued(p) =>
      && !x.uncertain && Preparable(h, db, i, e) && p == PreparedOf(h, generation, db, i, e)
      && db' == Reserved(h, db, i, e) && x' == x.(tickets := x.tickets + {p})
    case Failed(why) =>
      && x' == x && !why.PinReadRaised?
      && (if why.SealRaised? then
            !x.uncertain && Preparable(h, db, i, e) && e.reservation !in db.nonces && db' == Reserved(h, db, i, e)
          else db' == db)
    case OutcomeUnknown =>
      && !x.uncertain && x' == x.(uncertain := true) && e.reservation !in db.nonces
      && (db' == db || db' == Reserved(h, db, i, e))
    case _ => false
  }

  /**
   A commit returns the recorded result, applies its ticket, fails, or leaves the outcome open.
   A failure has no effect, except that one after COMMIT and outside the handler leaves the ticket applied.
   */
  ghost predicate CommitStep(h: Hasher, generation: Id, db: Db, x: Session, p: Prepared, db': Db, x': Session, reply: Reply) {
    match reply
    case Found(receipt) =>
      && !x.uncertain && p in x.tickets
      && (db' == db || (Ready(h, generation, db, p) && db' == Applied(h, db, p)))
      && IntentRecorded(h, db', IntentOf(p)) && Tells(receipt, p.operation, db'.events[p.operation])
      && x' == x.(known := Some(PinOf(generation, db', h.scope(x.scope))))
    case Failed(why) =>
      && x' == x && !why.SealRaised?
      && (if why.PinReadRaised? then
            && !x.uncertain && p in x.tickets && Ready(h, generation, db, p) && db' == Applied(h, db, p)
            && p.operation !in db.events && IntentRecorded(h, db', IntentOf(p))
          else db' == db)
    case OutcomeUnknown =>
      && !x.uncertain && p in x.tickets && x' == x.(uncertain := true)
      && (db' == db || (Ready(h, generation, db, p) && db' == Applied(h, db, p)))
    case _ => false
  }

  /** What a refusal before the reservation says about the store, the intent and the surroundings. */
  ghost predicate AdmissionRefused(h: Hasher, db: Db, uncertain: bool, i: Intent, e: Setting, c: Circumstances, why: Refusal) {
    var s := h.scope(i.scope);
    match why
    case OutcomeUnknownBefore => uncertain
    case InvalidIntent => !IntentOk(i)
    case CoreIdentityChanged => !c.engineSame
    case OperationAlreadyCommitted => i.operation in db.events
    case StaleFrontier => Revision(db, s) != i.expectedRevision
    case ModeMismatch => s in db.frontiers && db.frontiers[s].evidence != e.evidence
    case NotCollectable(code) =>
      !Collectable(e.auth, e.external, RawInputs(db, s), i.targets) && CollectFault(e.auth, e.external, RawInputs(db, s), i.targets, code)
    case CoreFailure => !c.coreAccepts
    case GuardFailed => !c.guard
    case ResourceBudget => !c.withinBudget
    case Aborted => e.reservation in db.nonces
    case _ => false
  }

  /** What may stand in the way of a preparation that the store allows. */
  ghost predicate Admitting(c: Circumstances) {
    c.engineSame && c.coreAccepts && c.guard && c.withinBudget
  }

  predicate StruckAt(c: Circumstances, stage: Stage) {
    c.trouble.Some? && c.trouble.value.stage == stage
  }

  /** No exception at a stage that the reservation's transaction and what follows it have. */
  ghost predicate ReservesCalmly(c: Circumstances) {
    !StruckAt(c, BeforeBegin) && !StruckAt(c, AfterBegin) && !StruckAt(c, AtCommit) && !StruckAt(c, AfterCommit) && !StruckAt(c, Afterwards)
  }

  /** What a refused commit says about the ticket, the store and the surroundings. */
  ghost predicate CommitRefused(h: Hasher, generation: Id, db: Db, x: Session, p: Prepared, c: Circumstances, why: Refusal) {
    match why
    case OutcomeUnknownBefore => x.uncertain
    case ForeignPrepared => p !in x.tickets
    case CoreIdentityChanged => !c.engineSame
    case GuardFailed => !c.guard
    case StaleFrontier => Revision(db, ScopeOf(p)) != p.record.meta.expectedRevision
    case OperationConflict => p.operation in db.events && !IntentRecorded(h, db, IntentOf(p))
    case MaterializationInvalid => IntentRecorded(h, db, IntentOf(p)) && !c.decrypts
    case Aborted => !CommitsCalmly(c) || !Ready(h, generation, db, p)
    case PinReadRaised => StruckAt(c, Afterwards)
    case _ => false
  }

  /** The stored inputs still open to the hashes they are stored under. */
  ghost predicate StoredOpens(h: Hasher, db: Db, i: Intent, e: Setting) {
    var rows := Stored(db, h.scope(i.scope));
    forall x :: x in rows ==> e.auth.open(x, rows[x].raw).Some? && e.auth.open(x, rows[x].raw).value.inner == rows[x].inner
  }

  /** An intent that the store as it stands lets through to a commit. */
  ghost predicate Appliable(h: Hasher, db: Db, uncertain: bool, i: Intent, e: Setting) {
    !uncertain && Preparable(h, db, i, e) && StoredOpens(h, db, i, e)
  }

  /** A commit under which guard and engine hold and nothing raises. */
  ghost predicate CommitsCalmly(c: Circumstances) {
    c.engineSame && c.guard && c.trouble.None?
  }

  // ---------------------------------------------------------------- the object

  /** The durable tables and the open transaction, if any. */
  class Storage {
    var durable: Db
    var pending: Option<Db>

    constructor (db: Db)
      ensures durable == db && pending == None
    {
      durable, pending := db, None;
    }
  }

  /** The point of a transaction at which an exception strikes; `Afterwards` is past its `try` block. */
  datatype Stage =
    | BeforeBegin | AfterBegin | AfterInputs | AfterEvent | AfterFrontier | AfterNonce | AtCommit | AfterCommit | Afterwards

  /** The exception, whether ROLLBACK then fails too, and whether a COMMIT that raised took effect. */
  datatype Trouble = Trouble(stage: Stage, rollbackFails: bool, durable: bool)

  /** What the surroundings answer during one call; `decrypts` also covers the reads of an inquiry. */
  datatype Circumstances = Circumstances(decrypts: bool, engineSame: bool, guard: bool, coreAccepts: bool,
                                         withinBudget: bool, trouble: Option<Trouble>)

  class DocumentApplier {
    const h: Hasher
    const generation: Id
    const scope: Id
    const store: Storage
    var uncertain: bool
    var known: Option<Pin>
    var issued: set<Prepared>

    constructor (h: Hasher, generation: Id, scope: Id, store: Storage)
      requires store.pending.None? && Audited(h, generation, store.durable) && Constraints(store.durable)
      ensures this.h == h && this.generation == generation && this.scope == scope && this.store == store
      ensures View() == Session(scope, false, None, {}) && Valid()
    {
      this.h, this.generation, this.scope, this.store := h, generation, scope, store;
      uncertain, known, issued := false, None, {};
    }

    ghost function View(): Session
      reads this
    {
      Session(scope, uncertain, known, issued)
    }

    ghost predicate Valid()
      reads this, store
    {
      && store.pending.None? && LedgerOk(h, generation, store.durable, issued)
      && (forall p :: p in issued ==> p.record.meta.scope == scope)
    }

    method Inquire(i: Intent, c: Circumstances) returns (reply: Reply)
      requires Valid() && i.scope == scope
      modifies this`known
      ensures Valid()
      ensures InquireStep(h, generation, store.durable, old(View()), i, View(), reply)
      ensures !uncertain && IntentOk(i) && c.decrypts ==>
                (reply.Found? <==> IntentRecorded(h, store.durable, i))
      ensures !uncertain && IntentOk(i) ==> (reply == Absent <==> i.operation !in store.durable.events)
      ensures reply.Failed? ==>
                match reply.why
                case OutcomeUnknownBefore => uncertain
                case InvalidIntent => !IntentOk(i)
                case OperationConflict => i.operation in store.durable.events && !IntentRecorded(h, store.durable, i)
                case MaterializationInvalid => IntentRecorded(h, store.durable, i) && !c.decrypts
                case _ => false
    {
      if uncertain { return Failed(OutcomeUnknownBefore); }
      if !IntentOk(i) { return Failed(InvalidIntent); }
      var events := store.durable.events;
      if i.operation !in events { return Absent; }
      var e := events[i.operation];
      if e.scope != h.scope(scope) || e.requestDigest != h.intent(i) { return Failed(OperationConflict); }
      if !c.decrypts { return Failed(MaterializationInvalid); }
      known := Some(PinOf(generation, store.durable, h.scope(scope)));
      reply := Found(ReceiptOf(i.operation, e));
    }

    method Prepare(i: Intent, e: Setting, c: Circumstances) returns (reply: Reply)
      requires Valid() && i.scope == scope
      modifies this, store
      ensures Valid()
      ensures PrepareStep(h, generation, old(store.durable), old(View()), i, e, store.durable, View(), reply)
      ensures store.durable != old(store.durable) ==> (StruckAt(c, Afterwards) <==> reply == Failed(SealRaised))
      ensures reply.Issued? <==> old(!uncertain && Preparable(h, store.durable, i, e)) && Admitting(c) && ReservesCalmly(c)
      ensures reply.Failed? && !Admitting(c) ==> AdmissionRefused(h, old(store.durable), old(uncertain), i, e, c, reply.why)
    {
      hide LedgerOk;
      hide Reserved;
      hide Preparable;
      hide PreparedOf;
      var collected := Admit(i, e, c);
      if collected.Err? { return Failed(collected.error); }
      reply := Reserve(i, e, c, collected.value);
    }

    /** `prepare` up to the reservation: everything it refuses, and the collected request. */
    method Admit(i: Intent, e: Setting, c: Circumstances) returns (r: Result<Collected, Refusal>)
      requires Valid() && i.scope == scope
      ensures r.Ok? ==>
                && !uncertain && Preparable(h, store.durable, i, e) && e.reservation !in store.durable.nonces
                && PreparedFrom(h, generation, store.durable, i, e, r.value) == PreparedOf(h, generation, store.durable, i, e)
      ensures r.Ok? <==> !uncertain && Admitting(c) && Preparable(h, store.durable, i, e)
      ensures r.Err? ==> AdmissionRefused(h, store.durable, uncertain, i, e, c, r.error)
    {
      hide Collectable;
      hide Gathered;
      hide LedgerOk;
      hide RawInputs;
      hide CollectFault;
      hide Delivers;
      hide Preparable;
      hide PreparedOf;
      hide PreparedFrom;
      hide Revision;
      hide IntentOk;
      PreparableDecided(h, generation, store.durable, i, e);
      if uncertain { return Err(OutcomeUnknownBefore); }
      if !IntentOk(i) { return Err(InvalidIntent); }
      if !c.engineSame { return Err(CoreIdentityChanged); }
      var db := store.durable;
      if i.operation in db.events { return Err(OperationAlreadyCommitted); }
      var s := h.scope(scope);
      if Revision(db, s) != i.expectedRevision { return Err(StaleFrontier); }
      if s in db.frontiers && db.frontiers[s].evidence != e.evidence { return Err(ModeMismatch); }
      var collected := RunCollect(e.auth, e.external, RawInputs(db, s), i.targets);
      if collected.Err? { return Err(NotCollectable(collected.error)); }
      if !c.coreAccepts { return Err(CoreFailure); }
      if !c.guard { return Err(GuardFailed); }
      if !c.withinBudget { return Err(ResourceBudget); }
      if e.reservation in db.nonces { return Err(Aborted); }
      r := Ok(collected.value);
    }

    /** The reservation's own transaction, and what follows it. */
    method Reserve(i: Intent, e: Setting, c: Circumstances, collected: Collected) returns (reply: Reply)
      requires Valid() && i.scope == scope && !uncertain && Preparable(h, store.durable, i, e)
      requires e.reservation !in store.durable.nonces
      requires PreparedFrom(h, generation, store.durable, i, e, collected) == PreparedOf(h, generation, store.durable, i, e)
      modifies this, store
      ensures Valid()
      ensures PrepareStep(h, generation, old(store.durable), old(View()), i, e, store.durable, View(), reply)
      ensures store.durable != old(store.durable) ==> (StruckAt(c, Afterwards) <==> reply == Failed(SealRaised))
      ensures reply.Issued? <==> ReservesCalmly(c)
    {
      hide LedgerOk;
      hide Preparable;
      hide PreparedOf;
      var db := store.durable;
      if StruckAt(c, BeforeBegin) || StruckAt(c, AfterBegin) { return Failed(Aborted); }
      if StruckAt(c, AtCommit) && !c.trouble.value.durable && c.trouble.value.rollbackFails { return Failed(Aborted); }
      ReserveKeepsLedger(h, generation, db, issued, i, e);
      PrepareKeepsLedger(h, generation, db, issued, i, e);
      if StruckAt(c, AtCommit) || StruckAt(c, AfterCommit) {
        if c.trouble.value.durable || StruckAt(c, AfterCommit) { store.durable := Reserved(h, db, i, e); }
        uncertain := true;
        return OutcomeUnknown;
      }
      store.durable := Reserved(h, db, i, e);
      if StruckAt(c, Afterwards) { return Failed(SealRaised); }
      var p := PreparedFrom(h, generation, db, i, e, collected);
      assert p == PreparedOf(h, generation, db, i, e);
      issued := issued + {p};
      reply := Issued(p);
    }

    /** `for eid,cid,raw in p.records`: compare what is stored, insert what is not. */
    method WriteInputs(p: Prepared, db: Db) returns (ok: bool, rows: map<Id, InputRow>)
      ensures ok <==> KeepsRowsAndDigests(h, Stored(db, ScopeOf(p)), p.records)
      ensures ok ==> rows == Stored(db, ScopeOf(p)) + NewRows(h, db, p)
    {
      var stored := Stored(db, ScopeOf(p));
      var rest := p.records.Keys;
      rows := stored;
      while rest != {}
        invariant rest <= p.records.Keys
        invariant rows.Keys == stored.Keys + (p.records.Keys - rest)
        invariant forall x :: x in stored ==> rows[x] == stored[x]
        invariant forall x :: x in rows && x !in stored ==> rows[x] == NewRow(h, p, x)
        invariant forall x :: x in p.records && x !in rest && x in stored ==> SameRow(h, stored[x], p.records[x])
      {
        var x :| x in rest;
        if x in stored {
          if !SameRow(h, stored[x], p.records[x]) { return false, rows; }
        } else {
          rows := rows[x := NewRow(h, p, x)];
        }
        rest := rest - {x};
      }
      ok := true;
      assert rows.Keys == (stored + NewRows(h, db, p)).Keys;
    }

    /** The `try` block of `commit`. The inserts go to the open transaction; COMMIT makes it durable. */
    method Transact(p: Prepared, c: Circumstances) returns (raised: bool, attempted: bool)
      requires store.pending.None? && LedgerOk(h, generation, store.durable, issued) && p in issued
      requires p.operation !in store.durable.events && Revision(store.durable, ScopeOf(p)) == p.record.meta.expectedRevision
      modifies store
      ensures !attempted ==> raised && store.durable == old(store.durable)
      ensures attempted ==> Ready(h, generation, old(store.durable), p)
      ensures raised && attempted ==> StruckAt(c, AtCommit) || StruckAt(c, AfterCommit)
      ensures attempted ==> store.durable == old(store.durable) || store.durable == Applied(h, old(store.durable), p)
      ensures !raised ==> store.durable == Applied(h, old(store.durable), p) && store.pending.None?
      ensures old(Ready(h, generation, store.durable, p)) && CommitsCalmly(c) ==> !raised
    {
      hide LedgerOk;
      hide Ready;
      hide NewRows;
      hide KeepsRows;
      hide KeepsRowsAndDigests;
      var db := store.durable;
      var s, m := ScopeOf(p), p.record.meta;
      if StruckAt(c, BeforeBegin) { return true, false; }
      store.pending := Some(db);
      if StruckAt(c, AfterBegin) || !c.guard { return true, false; }
      if Ready(h, generation, db, p) { ReadyRows(h, generation, db, issued, p); }
      if FrontierDigest(db, s) != m.previousDigest { return true, false; }
      var ok, rows := WriteInputs(p, db);
      if !ok { return true, false; }
      TicketIsReady(h, generation, db, issued, p);
      var work := db.(inputs := db.inputs[s := rows]);
      store.pending := Some(work);
      if StruckAt(c, AfterInputs) { return true, false; }
      work := work.(events := work.events[p.operation := EventOf(h, p)]);
      store.pending := Some(work);
      if StruckAt(c, AfterEvent) { return true, false; }
      work := work.(frontiers := work.frontiers[s := FrontierOf(p.operation, EventOf(h, p))]);
      store.pending := Some(work);
      if StruckAt(c, AfterFrontier) { return true, false; }
      if m.reservation !in work.nonces ||
         work.nonces[m.reservation] != NonceRow(s, work.nonces[m.reservation].keyContext, p.record.nonce, m.requestDigest, None) {
        return true, false;
      }
      work := work.(nonces := work.nonces[m.reservation := work.nonces[m.reservation].(usedBy := Some(p.operation))]);
      store.pending := Some(work);
      assert work == Applied(h, db, p);
      if StruckAt(c, AfterNonce) || !c.engineSame { return true, false; }
      if StruckAt(c, AtCommit) {
        if c.trouble.value.durable { store.durable, store.pending := work, None; }
        return true, true;
      }
      store.durable, store.pending := work, None;
      return StruckAt(c, AfterCommit), true;
    }

    /** The body of `commit` after its inquiry: the transaction and the exception handler. */
    method RunTransaction(p: Prepared, c: Circumstances) returns (reply: Reply)
      requires Valid() && !uncertain && p in issued && p.operation !in store.durable.events
      modifies this, store
      ensures Valid()
      ensures CommitStep(h, generation, old(store.durable), old(View()), p, store.durable, View(), reply)
      ensures store.durable != old(store.durable) ==> (StruckAt(c, Afterwards) <==> reply == Failed(PinReadRaised))
      ensures reply.Failed? ==> CommitRefused(h, generation, old(store.durable), old(View()), p, c, reply.why)
      ensures old(Ready(h, generation, store.durable, p)) && CommitsCalmly(c) ==> reply.Found?
    {
      hide LedgerOk;
      hide Ready;
      hide Applied;
      hide Revision;
      hide KeepsRowsAndDigests;
      hide FrontierDigest;
      hide PinOf;
      hide IntentRecorded;
      var s := ScopeOf(p);
      if Ready(h, generation, store.durable, p) { ReadyRows(h, generation, store.durable, issued, p); }
      if !c.guard { return Failed(GuardFailed); }
      if Revision(store.durable, s) != p.record.meta.expectedRevision { return Failed(StaleFrontier); }
      var raised, attempted := Transact(p, c);
      if attempted { CommittedTicket(h, generation, old(store.durable), issued, p); }
      if raised {
        var rollbackFailed := store.pending.Some? && c.trouble.Some? && c.trouble.value.rollbackFails;
        store.pending := None;
        if attempted || rollbackFailed {
          uncertain := true;
          return OutcomeUnknown;
        }
        return Failed(Aborted);
      }
      if StruckAt(c, Afterwards) { return Failed(PinReadRaised); }
      known := Some(PinOf(generation, store.durable, h.scope(scope)));
      reply := Found(ReceiptOf(p.operation, EventOf(h, p)));
    }

    method Commit(p: Prepared, c: Circumstances) returns (reply: Reply)
      requires Valid()
      modifies this, store
      ensures Valid()
      ensures CommitStep(h, generation, old(store.durable), old(View()), p, store.durable, View(), reply)
      ensures store.durable != old(store.durable) ==> (StruckAt(c, Afterwards) <==> reply == Failed(PinReadRaised))
      ensures reply.Failed? ==> CommitRefused(h, generation, old(store.durable), old(View()), p, c, reply.why)
      ensures old(!uncertain && p in issued && Ready(h, generation, store.durable, p)) && CommitsCalmly(c) ==> reply.Found?
    {
      hide LedgerOk;
      hide Ready;
      hide Applied;
      if uncertain { return Failed(OutcomeUnknownBefore); }
      if p !in issued { return Failed(ForeignPrepared); }
      if !c.engineSame { return Failed(CoreIdentityChanged); }
      TicketIntentOk(h, generation, store.durable, issued, p);
      if Ready(h, generation, store.durable, p) { ReadyRows(h, generation, store.durable, issued, p); }
      reply := Inquire(IntentOf(p), c);
      if !reply.Absent? { return; }
      reply := RunTransaction(p, c);
    }

    /**
     `apply`: inquire, else prepare and commit. A found result is the recorded event of this
     intent, a failure adds an event exactly when the commit's closing read raised, which is
     then this intent's, and an intent already recorded is answered without touching the store.
     */
    method Apply(i: Intent, e: Setting, c: Circumstances, d: Circumstances) returns (reply: Reply)
      requires Valid() && i.scope == scope
      modifies this, store
      ensures Valid() && !reply.Absent? && !reply.Issued?
      ensures Extends(old(store.durable), store.durable)
      ensures reply.Found? ==> IntentRecorded(h, store.durable, i)
                               && Tells(reply.receipt, i.operation, store.durable.events[i.operation])
      ensures reply.Found? && i.operation !in old(store.durable.events) ==>
                reply.receipt.revision == i.expectedRevision + 1 && i.targets <= reply.receipt.inputs
      ensures old(!uncertain && IntentRecorded(h, store.durable, i)) && IntentOk(i) && c.decrypts ==> reply.Found?
      ensures old(Appliable(h, store.durable, uncertain, i, e)) && Admitting(c) && ReservesCalmly(c) && CommitsCalmly(d) ==> reply.Found?
      ensures reply.Failed? ==> (store.durable.events != old(store.durable.events) <==> reply.why.PinReadRaised?)
      ensures reply == Failed(PinReadRaised) ==> !old(IntentRecorded(h, store.durable, i)) && IntentRecorded(h, store.durable, i)
      ensures reply.OutcomeUnknown? ==> uncertain
      ensures old(IntentRecorded(h, store.durable, i)) ==> store.durable == old(store.durable)
    {
      hide LedgerOk;
      hide Ready;
      hide Applied;
      hide Collectable;
      hide Gathered;
      hide Extends;
      ghost var before := store.durable;
      assert Extends(before, before) by { SelfExtends(before); }
      reply := Inquire(i, c);
      if !reply.Absent? { return; }
      reply := Prepare(i, e, c);
      assert Extends(before, store.durable) by { PrepareExtends(h, generation, before, old(View()), i, e, store.durable, View(), reply); }
      if !reply.Issued? { return; }
      ghost var middle := store.durable;
      ghost var session := View();
      var p := reply.ticket;
      IssuedTicket(h, generation, before, i, e);
      reply := Commit(p, d);
      CommitStepExtends(h, generation, middle, session, p, store.durable, View(), reply);
      if store.durable != middle {
        AppliedEvent(h, generation, middle, p);
      }
      assert Extends(before, store.durable) by { ExtendsTransitive(before, middle, store.durable); }
    }
  }

  lemma {:induction false} PreparableDecided(h: Hasher, generation: Id, db: Db, i: Intent, e: Setting)
    ensures var s := h.scope(i.scope);
            Preparable(h, db, i, e) <==>
              && IntentOk(i) && i.operation !in db.events && Revision(db, s) == i.expectedRevision
              && (s in db.frontiers ==> db.frontiers[s].evidence == e.evidence)
              && Collectable(e.auth, e.external, RawInputs(db, s), i.targets) && e.reservation !in db.nonces
    ensures Preparable(h, db, i, e) ==>
              PreparedOf(h, generation, db, i, e) ==
              PreparedFrom(h, generation, db, i, e, Gathered(e.auth, e.external, RawInputs(db, h.scope(i.scope)), i.targets))
  {
    hide Collectable;
    hide Gathered;
  }

  lemma {:induction false} AppliedEvent(h: Hasher, generation: Id, db: Db, p: Prepared)
    requires Ready(h, generation, db, p)
    ensures p.record.meta.reservation in db.nonces && p.operation in Applied(h, db, p).events
    ensures Applied(h, db, p).events[p.operation] == EventOf(h, p)
  {
    ReadyBasics(h, generation, db, p);
    hide Ready;
  }

  lemma {:induction false} TicketIntentOk(h: Hasher, generation: Id, db: Db, tickets: set<Prepared>, p: Prepared)
    requires LedgerOk(h, generation, db, tickets) && p in tickets
    ensures IntentOk(IntentOf(p))
  {
    assert TicketOk(h, generation, db, p);
    hide Audited;
    hide Constraints;
  }

  /** Rows of an audited store compare equal to those of a ready ticket. */
  lemma {:induction false} ReadyRows(h: Hasher, generation: Id, db: Db, tickets: set<Prepared>, p: Prepared)
    requires LedgerOk(h, generation, db, tickets) && Ready(h, generation, db, p)
    ensures KeepsRowsAndDigests(h, Stored(db, ScopeOf(p)), p.records) && FrontierDigest(db, ScopeOf(p)) == p.record.meta.previousDigest
    ensures Revision(db, ScopeOf(p)) == p.record.meta.expectedRevision && p.operation !in db.events
  {
    var s := ScopeOf(p);
    forall x | x in Stored(db, s)
      ensures Stored(db, s)[x].digest == h.base.input(Stored(db, s)[x].raw)
    {
      assert InputListed(db, s, x);
      var op :| op in db.events && db.events[op].scope == s && x in InputsOf(db.events[op]);
      assert EventOk(h, generation, db, op);
      assert InputHeld(h, db, db.events[op], x);
    }
    hide LedgerOk;
    hide Bound;
  }

  /** The ticket of a preparation names its intent, holds its targets, and is ready while the stored inputs still open. */
  lemma {:induction false} IssuedTicket(h: Hasher, generation: Id, db: Db, i: Intent, e: Setting)
    requires Preparable(h, db, i, e)
    ensures var p := PreparedOf(h, generation, db, i, e);
            && IntentOf(p) == i && p.operation == i.operation && p.record.meta.revision == i.expectedRevision + 1
            && i.targets <= p.record.meta.recording.inputs.Keys
    ensures StoredOpens(h, db, i, e) ==> Ready(h, generation, Reserved(h, db, i, e), PreparedOf(h, generation, db, i, e))
  {
    PreparedRecords(h, generation, db, i, e);
    CollectedWell(e.auth, e.external, RawInputs(db, h.scope(i.scope)), i.targets);
    if StoredOpens(h, db, i, e) {
      PreparedIsReady(h, generation, db, i, e);
    }
    hide Preparable;
    hide PreparedOf;
    hide Ready;
  }

  /** What `Transact` needs of a ticket whose rows compare equal. */
  lemma {:induction false} TicketIsReady(h: Hasher, generation: Id, db: Db, tickets: set<Prepared>, p: Prepared)
    requires LedgerOk(h, generation, db, tickets) && p in tickets && p.operation !in db.events
    requires Revision(db, ScopeOf(p)) == p.record.meta.expectedRevision
    requires KeepsRowsAndDigests(h, Stored(db, ScopeOf(p)), p.records)
    ensures Ready(h, generation, db, p) && p.record.meta.reservation in db.nonces
    ensures db.nonces[p.record.meta.reservation] ==
              NonceRow(ScopeOf(p), p.record.meta.keyContext, p.record.nonce, p.record.meta.requestDigest, None)
  {
    hide Audited;
    hide Constraints;
    hide Bound;
    assert TicketOk(h, generation, db, p);
  }

  /** A committed ticket is recorded under its intent and leaves the ledger in order. */
  lemma {:induction false} CommittedTicket(h: Hasher, generation: Id, db: Db, tickets: set<Prepared>, p: Prepared)
    requires LedgerOk(h, generation, db, tickets) && p in tickets && Ready(h, generation, db, p)
    ensures LedgerOk(h, generation, Applied(h, db, p), tickets)
    ensures IntentRecorded(h, Applied(h, db, p), IntentOf(p)) && Applied(h, db, p).events[p.operation] == EventOf(h, p)
  {
    CommitKeepsLedger(h, generation, db, tickets, p);
    ReadyBasics(h, generation, db, p);
    hide LedgerOk;
    hide Ready;
    hide NewRows;
    assert TicketOk(h, generation, db, p) by { OneTicket(h, generation, db, tickets, p); }
  }

  lemma {:induction false} OneTicket(h: Hasher, generation: Id, db: Db, tickets: set<Prepared>, p: Prepared)
    requires LedgerOk(h, generation, db, tickets) && p in tickets
    ensures TicketOk(h, generation, db, p)
  {
  }

  lemma {:induction false} SelfExtends(db: Db)
    ensures Extends(db, db)
  {
  }

  lemma {:induction false} PrepareExtends(h: Hasher, generation: Id, db: Db, x: Session, i: Intent, e: Setting, db': Db, x': Session, reply: Reply)
    requires PrepareStep(h, generation, db, x, i, e, db', x', reply)
    ensures Extends(db, db') && db'.events == db.events
  {
    hide Collectable;
    SelfExtends(db);
    if db' != db {
      ReserveExtends(h, db, i, e);
    }
  }

  lemma {:induction false} CommitStepExtends(h: Hasher, generation: Id, db: Db, x: Session, p: Prepared, db': Db, x': Session, reply: Reply)
    requires CommitStep(h, generation, db, x, p, db', x', reply)
    ensures Extends(db, db')
  {
    hide Ready;
    hide Applied;
    SelfExtends(db);
    if db' != db {
      CommitExtends(h, generation, db, p);
    }
  }

  predicate SameRow(h: Hasher, row: InputRow, r: InputRecord) {
    row.inner == r.inner && row.raw == r.raw && row.digest == h.base.input(r.raw)
  }

  ghost predicate KeepsRowsAndDigests(h: Hasher, rows: map<Id, InputRow>, records: map<Id, InputRecord>) {
    forall x :: x in rows && x in records ==> SameRow(h, rows[x], records[x])
  }
}
