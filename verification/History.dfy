/** Reading back over whole runs: every event of every reachable ledger replays. */
module History {
  import opened Ordering
  import opened Contracts
  import opened Collect
  import opened Replay
  import opened Ledger
  import opened Commit
  import opened Pins
  import opened Prepare
  import opened Applier
  import opened Runs
  import opened ReadBack
  import opened Genesis

  type Opener = (Id, Raw) -> Option<Change>

  /** Where a ticket was prepared, and where it was committed if it was. */
  datatype Origin = Origin(start: Db, intent: Intent, setting: Setting, commit: Db)

  ghost predicate Opens(open: Opener, auth: Authority) {
    forall x, raw :: auth.open(x, raw) == open(x, raw)
  }

  ghost predicate MadeAt(h: Hasher, generation: Id, open: Opener, o: Origin, p: Prepared) {
    && Audited(h, generation, o.start) && Constraints(o.start) && Preparable(h, o.start, o.intent, o.setting)
    && Opens(open, o.setting.auth) && p == PreparedOf(h, generation, o.start, o.intent, o.setting)
  }

  ghost predicate TicketOrigin(h: Hasher, generation: Id, open: Opener, db: Db, p: Prepared) {
    exists o :: MadeAt(h, generation, open, o, p) && Extends(Reserved(h, o.start, o.intent, o.setting), db)
  }

  ghost predicate CommittedAt(h: Hasher, generation: Id, o: Origin, p: Prepared, db: Db) {
    && Audited(h, generation, o.commit) && Constraints(o.commit)
    && Extends(Reserved(h, o.start, o.intent, o.setting), o.commit)
    && Ready(h, generation, o.commit, p) && p.record.meta.reservation in o.commit.nonces
    && Extends(Applied(h, o.commit, p), db)
  }

  ghost predicate EventOrigin(h: Hasher, generation: Id, open: Opener, db: Db, op: Id) {
    exists o, p :: MadeAt(h, generation, open, o, p) && p.operation == op && CommittedAt(h, generation, o, p, db)
  }

  ghost predicate HistoryOk(h: Hasher, generation: Id, open: Opener, w: World) {
    && (forall p :: p in TicketsIn(w.sessions) ==> TicketOrigin(h, generation, open, w.db, p))
    && (forall op :: op in w.db.events ==> EventOrigin(h, generation, open, w.db, op))
  }

  /** Every preparation of the run opens envelopes in the same way. */
  ghost predicate OneOpener(open: Opener, labels: seq<Label>) {
    forall k :: 0 <= k < |labels| && labels[k].Preparation? ==> Opens(open, labels[k].setting.auth)
  }

  // ---------------------------------------------------------------- origins are kept

  lemma {:induction false} OriginsStay(h: Hasher, generation: Id, open: Opener, db: Db, db': Db)
    requires Extends(db, db')
    ensures forall p :: TicketOrigin(h, generation, open, db, p) ==> TicketOrigin(h, generation, open, db', p)
    ensures forall op :: EventOrigin(h, generation, open, db, op) ==> EventOrigin(h, generation, open, db', op)
  {
    hide Extends;
    hide MadeAt;
    hide Ready;
    hide Audited;
    hide Constraints;
    forall p | TicketOrigin(h, generation, open, db, p)
      ensures TicketOrigin(h, generation, open, db', p)
    {
      var o :| MadeAt(h, generation, open, o, p) && Extends(Reserved(h, o.start, o.intent, o.setting), db);
      ExtendsTransitive(Reserved(h, o.start, o.intent, o.setting), db, db');
    }
    forall op | EventOrigin(h, generation, open, db, op)
      ensures EventOrigin(h, generation, open, db', op)
    {
      var o, p :| MadeAt(h, generation, open, o, p) && p.operation == op && CommittedAt(h, generation, o, p, db);
      ExtendsTransitive(Applied(h, o.commit, p), db, db');
      assert CommittedAt(h, generation, o, p, db');
    }
  }

  lemma {:induction false} NewTicket(h: Hasher, generation: Id, open: Opener, db: Db, i: Intent, e: Setting)
    requires Audited(h, generation, db) && Constraints(db) && Preparable(h, db, i, e) && Opens(open, e.auth)
    ensures TicketOrigin(h, generation, open, Reserved(h, db, i, e), PreparedOf(h, generation, db, i, e))
  {
    hide Extends;
    hide Preparable;
    hide PreparedOf;
    hide Audited;
    hide Constraints;
    SelfExtends(Reserved(h, db, i, e));
    assert MadeAt(h, generation, open, Origin(db, i, e, db), PreparedOf(h, generation, db, i, e));
  }

  lemma {:induction false} NewEvent(h: Hasher, generation: Id, open: Opener, db: Db, p: Prepared)
    requires Audited(h, generation, db) && Constraints(db) && Ready(h, generation, db, p)
    requires TicketOrigin(h, generation, open, db, p) && p.record.meta.reservation in db.nonces
    ensures EventOrigin(h, generation, open, Applied(h, db, p), p.operation)
  {
    hide Extends;
    hide Preparable;
    hide PreparedOf;
    hide Audited;
    hide Constraints;
    hide Ready;
    hide Applied;
    var o :| MadeAt(h, generation, open, o, p) && Extends(Reserved(h, o.start, o.intent, o.setting), db);
    var made := o.(commit := db);
    SelfExtends(Applied(h, db, p));
    assert MadeAt(h, generation, open, made, p);
    assert CommittedAt(h, generation, made, p, Applied(h, db, p));
  }

  lemma {:induction false} LedgerIsAudited(h: Hasher, generation: Id, w: World)
    requires WorldOk(h, generation, w)
    ensures Audited(h, generation, w.db) && Constraints(w.db)
  {
  }

  lemma {:induction false} NextKeepsHistory(h: Hasher, generation: Id, open: Opener, w: World, l: Label, w': World)
    requires WorldOk(h, generation, w) && Next(h, generation, w, l, w') && HistoryOk(h, generation, open, w)
    requires l.Preparation? ==> Opens(open, l.setting.auth)
    ensures HistoryOk(h, generation, open, w')
  {
    LedgerIsAudited(h, generation, w);
    NextExtends(h, generation, w, l, w');
    OriginsStay(h, generation, open, w.db, w'.db);
    hide WorldOk;
    hide Extends;
    hide Opens;
    hide TicketOrigin;
    hide EventOrigin;
    hide Audited;
    hide Constraints;
    hide Preparable;
    hide PreparedOf;
    hide Ready;
    hide PinAccepted;
    NewTickets(h, generation, w, l, w');
    NewEvents(h, generation, w, l, w');
    hide Next;
    forall p | p in TicketsIn(w'.sessions)
      ensures TicketOrigin(h, generation, open, w'.db, p)
    {
      if p !in TicketsIn(w.sessions) {
        NewTicket(h, generation, open, w.db, l.intent, l.setting);
      }
    }
    forall op | op in w'.db.events
      ensures EventOrigin(h, generation, open, w'.db, op)
    {
      if op !in w.db.events {
        NewEvent(h, generation, open, w.db, l.ticket);
      }
    }
  }

  /** A new ticket is the one that a preparation issues. */
  lemma {:induction false} NewTickets(h: Hasher, generation: Id, w: World, l: Label, w': World)
    requires Next(h, generation, w, l, w')
    ensures forall p :: p in TicketsIn(w'.sessions) && p !in TicketsIn(w.sessions) ==>
              && l.Preparation? && Preparable(h, w.db, l.intent, l.setting) && w'.db == Reserved(h, w.db, l.intent, l.setting)
              && p == PreparedOf(h, generation, w.db, l.intent, l.setting)
  {
    hide Preparable;
    hide PreparedOf;
    hide Ready;
    hide Applied;
    hide PinAccepted;
  }

  /** A new event is that of the ticket a commit applies. */
  lemma {:induction false} NewEvents(h: Hasher, generation: Id, w: World, l: Label, w': World)
    requires Next(h, generation, w, l, w')
    ensures forall op :: op in w'.db.events && op !in w.db.events ==>
              && l.Commitment? && l.ticket.operation == op && l.ticket in TicketsIn(w.sessions)
              && Ready(h, generation, w.db, l.ticket) && l.ticket.record.meta.reservation in w.db.nonces
              && w'.db == Applied(h, w.db, l.ticket)
  {
    hide Preparable;
    hide PreparedOf;
    hide PinAccepted;
    if l.Commitment? && w'.db != w.db {
      ReadyBasics(h, generation, w.db, l.ticket);
      hide Ready;
    }
  }

  // ---------------------------------------------------------------- every event replays

  ghost predicate FromTheStart(h: Hasher, generation: Id, open: Opener, run: seq<World>, labels: seq<Label>) {
    IsRun(h, generation, run, labels) && run[0] == World(EMPTY, map[], {}) && OneOpener(open, labels)
  }

  lemma {:induction false} RunKeepsHistory(h: Hasher, generation: Id, open: Opener, run: seq<World>, labels: seq<Label>, k: nat)
    requires FromTheStart(h, generation, open, run, labels) && k < |run|
    ensures WorldOk(h, generation, run[k]) && HistoryOk(h, generation, open, run[k])
  {
    hide Next;
    hide WorldOk;
    EmptyStoreIsOk(h, generation);
    if k == 0 {
      assert TicketsIn(run[0].sessions) == {};
    } else {
      RunKeepsHistory(h, generation, open, run, labels, k - 1);
      assert Next(h, generation, run[k - 1], labels[k - 1], run[k]);
      NextKeepsHistory(h, generation, open, run[k - 1], labels[k - 1], run[k]);
      NextKeepsWorld(h, generation, run[k - 1], labels[k - 1], run[k]);
    }
  }

  /** The event before is the same one in the ledger of the commit and in any later one. */
  lemma {:induction false} PreviousStays(h: Hasher, generation: Id, db: Db, p: Prepared, later: Db, previous: set<Id>)
    requires Audited(h, generation, db) && Constraints(db) && Ready(h, generation, db, p) && p.record.meta.reservation in db.nonces
    requires Extends(Applied(h, db, p), later) && Constraints(later) && PreviousInputs(later, EventOf(h, p), previous)
    ensures PreviousInputs(Applied(h, db, p), EventOf(h, p), previous)
  {
    CommitKeepsAudit(h, generation, db, p);
    var applied, e := Applied(h, db, p), EventOf(h, p);
    assert applied.events[p.operation] == e;
    if e.revision != 1 {
      assert EventOk(h, generation, applied, p.operation);
      assert Chained(applied, e);
      var q :| q in applied.events && Follows(applied.events[q], e);
      var r :| r in later.events && Follows(later.events[r], e) && previous == InputsOf(later.events[r]).Keys;
      assert SamePlace(later.events[q], later.events[r]);
    }
  }

  /**
   Over every run from the empty store in which envelopes open in one way: every event of
   every ledger on the way is replayed by `observe` from its recorded inputs and those of
   the event before it, so its request-digest check never fails.
   */
  lemma {:induction false} EveryEventReplays(h: Hasher, generation: Id, open: Opener, run: seq<World>, labels: seq<Label>, k: nat, op: Id,
                                             auth: Authority, previous: set<Id>)
    requires FromTheStart(h, generation, open, run, labels) && k < |run| && op in run[k].db.events
    requires Opens(open, auth) && PreviousInputs(run[k].db, run[k].db.events[op], previous)
    ensures var e := run[k].db.events[op];
            exists pool, request ::
              Replays(auth, h.base, RawInputs(run[k].db, e.scope), e.record.meta.recording, previous, pool, request)
  {
    var db := run[k].db;
    RunKeepsHistory(h, generation, open, run, labels, k);
    LedgerIsAudited(h, generation, run[k]);
    hide FromTheStart;
    hide WorldOk;
    assert EventOrigin(h, generation, open, db, op);
    hide HistoryOk;
    var o, p :| MadeAt(h, generation, open, o, p) && p.operation == op && CommittedAt(h, generation, o, p, db);
    OriginReplays(h, generation, open, o, p, db, auth, previous);
  }

  lemma {:induction false} EventIsThere(h: Hasher, db: Db, p: Prepared, later: Db)
    requires p.record.meta.reservation in db.nonces && Extends(Applied(h, db, p), later)
    ensures p.operation in later.events && later.events[p.operation] == EventOf(h, p)
  {
    assert p.operation in Applied(h, db, p).events;
  }

  lemma {:induction false} OpensAlike(open: Opener, a: Authority, b: Authority)
    requires Opens(open, a) && Opens(open, b)
    ensures forall x, raw :: a.open(x, raw) == b.open(x, raw)
  {
  }

  lemma {:induction false} OriginReplays(h: Hasher, generation: Id, open: Opener, o: Origin, p: Prepared, db: Db,
                                         auth: Authority, previous: set<Id>)
    requires MadeAt(h, generation, open, o, p) && CommittedAt(h, generation, o, p, db) && Constraints(db) && Opens(open, auth)
    requires p.operation in db.events && PreviousInputs(db, db.events[p.operation], previous)
    ensures var e := db.events[p.operation];
            exists pool, request ::
              Replays(auth, h.base, RawInputs(db, e.scope), e.record.meta.recording, previous, pool, request)
  {
    EventIsThere(h, o.commit, p, db);
    hide Extends;
    hide Audited;
    hide Constraints;
    hide Ready;
    hide Applied;
    hide Preparable;
    hide PreparedOf;
    hide PreviousInputs;
    hide Replays;
    hide Opens;
    OpensAlike(open, auth, o.setting.auth);
    PreviousStays(h, generation, o.commit, p, db, previous);
    CommittedEventReplays(h, generation, o.start, o.intent, o.setting, o.commit, db, auth, previous);
  }
}
