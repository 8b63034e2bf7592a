/** Prepared applications between `prepare` and `commit`, while the ledger moves on. */
module Tickets {
  import opened Ordering
  import opened Collect
  import opened Replay
  import opened Ledger
  import opened Commit
  import opened Pins
  import opened Prepare

  function IntentOf(p: Prepared): Intent {
    Intent(p.record.meta.scope, p.operation, p.targets, p.record.meta.expectedRevision)
  }

  /**
   An issued ticket: its reservation is its own, and as long as its operation is not
   recorded and the frontier has not moved it still fits the store.
   */
  ghost predicate TicketOk(h: Hasher, generation: Id, db: Db, p: Prepared) {
    var m := p.record.meta;
    && IntentOk(IntentOf(p)) && m.requestDigest == h.intent(IntentOf(p)) && m.scopeDigest == h.scope(m.scope)
    && m.reservation in db.nonces && db.nonces[m.reservation].usedBy in {None, Some(p.operation)}
    && Revision(db, ScopeOf(p)) >= m.expectedRevision
    && (Revision(db, ScopeOf(p)) == m.expectedRevision && p.operation !in db.events ==> Fits(h, generation, db, p))
  }

  ghost predicate TicketsOk(h: Hasher, generation: Id, db: Db, tickets: set<Prepared>) {
    && (forall p {:trigger TicketOk(h, generation, db, p)} :: p in tickets ==> TicketOk(h, generation, db, p))
    && (forall p, q :: p in tickets && q in tickets && p.record.meta.reservation == q.record.meta.reservation ==> p == q)
  }

  /** The invariant of a ledger together with every ticket issued against it. */
  ghost predicate LedgerOk(h: Hasher, generation: Id, db: Db, tickets: set<Prepared>) {
    Audited(h, generation, db) && Constraints(db) && TicketsOk(h, generation, db, tickets)
  }

  lemma {:induction false} ReserveExtends(h: Hasher, db: Db, i: Intent, e: Setting)
    requires e.reservation !in db.nonces
    ensures Extends(db, Reserved(h, db, i, e))
  {
  }

  lemma {:induction false} ReserveKeepsTicket(h: Hasher, generation: Id, db: Db, i: Intent, e: Setting, p: Prepared)
    requires TicketOk(h, generation, db, p) && e.reservation !in db.nonces
    ensures TicketOk(h, generation, Reserved(h, db, i, e), p)
    ensures p.record.meta.reservation != e.reservation
  {
  }

  /** A reservation that is lost or left behind disturbs no ticket. */
  lemma {:induction false} ReserveKeepsLedger(h: Hasher, generation: Id, db: Db, tickets: set<Prepared>, i: Intent, e: Setting)
    requires LedgerOk(h, generation, db, tickets) && e.reservation !in db.nonces
    ensures LedgerOk(h, generation, Reserved(h, db, i, e), tickets)
  {
    ReserveKeepsAudit(h, generation, db, i, e);
    hide Audited;
    hide Constraints;
    hide TicketOk;
    forall p | p in tickets
      ensures TicketOk(h, generation, Reserved(h, db, i, e), p)
    {
      assert TicketOk(h, generation, db, p);
      ReserveKeepsTicket(h, generation, db, i, e, p);
    }
  }

  lemma {:induction false} PreparedTicket(h: Hasher, generation: Id, db: Db, i: Intent, e: Setting)
    requires Preparable(h, db, i, e)
    ensures TicketOk(h, generation, Reserved(h, db, i, e), PreparedOf(h, generation, db, i, e))
    ensures PreparedOf(h, generation, db, i, e).record.meta.reservation == e.reservation
  {
    hide Fits;
    hide Collectable;
    hide Gathered;
    PreparedFits(h, generation, db, i, e);
  }

  /** Issuing a ticket keeps the invariant. */
  lemma {:induction false} PrepareKeepsLedger(h: Hasher, generation: Id, db: Db, tickets: set<Prepared>, i: Intent, e: Setting)
    requires LedgerOk(h, generation, db, tickets) && Preparable(h, db, i, e)
    ensures LedgerOk(h, generation, Reserved(h, db, i, e), tickets + {PreparedOf(h, generation, db, i, e)})
  {
    hide Audited;
    hide Constraints;
    hide TicketOk;
    hide Collectable;
    hide PreparedOf;
    ReserveKeepsLedger(h, generation, db, tickets, i, e);
    PreparedTicket(h, generation, db, i, e);
    forall q | q in tickets
      ensures q.record.meta.reservation != e.reservation
    {
      assert TicketOk(h, generation, db, q);
      ReserveKeepsTicket(h, generation, db, i, e, q);
    }
  }

  lemma {:induction false} CommitKeepsOther(h: Hasher, generation: Id, db: Db, p: Prepared, q: Prepared)
    requires Ready(h, generation, db, p) && TicketOk(h, generation, db, q)
    requires q.record.meta.reservation != p.record.meta.reservation
    ensures TicketOk(h, generation, Applied(h, db, p), q)
  {
    hide Ready;
    hide Bound;
    hide RefsOf;
    hide NewRows;
    ReadyBasics(h, generation, db, p);
    AppliedRows(h, db, p);
    RevisionAdvances(h, db, p);
  }

  lemma {:induction false} CommitKeepsOwn(h: Hasher, generation: Id, db: Db, p: Prepared)
    requires Ready(h, generation, db, p) && TicketOk(h, generation, db, p)
    ensures TicketOk(h, generation, Applied(h, db, p), p)
  {
  }

  /** Committing one ticket keeps the audit, the constraints and every other ticket. */
  lemma {:induction false} CommitKeepsLedger(h: Hasher, generation: Id, db: Db, tickets: set<Prepared>, p: Prepared)
    requires LedgerOk(h, generation, db, tickets) && p in tickets && Ready(h, generation, db, p)
    ensures LedgerOk(h, generation, Applied(h, db, p), tickets)
  {
    CommitKeepsAudit(h, generation, db, p);
    hide Audited;
    hide Constraints;
    hide TicketOk;
    hide Ready;
    ReadyBasics(h, generation, db, p);
    forall q | q in tickets
      ensures TicketOk(h, generation, Applied(h, db, p), q)
    {
      assert TicketOk(h, generation, db, q) && TicketOk(h, generation, db, p);
      if q == p {
        CommitKeepsOwn(h, generation, db, p);
      } else {
        CommitKeepsOther(h, generation, db, p, q);
      }
    }
  }
}
