/**
 Whole runs of the ledger: any number of appliers opened on one store, their calls in any
 interleaving, crashes and reopening. A lost response changes nothing here: the call and
 its return happened, whether or not a caller saw it.
 */
module Runs {
  import opened Ordering
  import opened Collect
  import opened Ledger
  import opened Commit
  import opened Pins
  import opened Prepare
  import opened Tickets
  import opened Applier

  /** The durable store, the live appliers, and every result returned so far. */
  datatype World = World(db: Db, sessions: map<Id, Session>, returned: set<(Intent, Receipt)>)

  datatype Label =
    | Opening(id: Id, scope: Id, pin: Option<Pin>)
    | Inquiry(id: Id, intent: Intent, reply: Reply)
    | Preparation(id: Id, intent: Intent, setting: Setting, reply: Reply)
    | Commitment(id: Id, ticket: Prepared, reply: Reply)
    | Crash

  ghost function TicketsIn(sessions: map<Id, Session>): set<Prepared> {
    set id, p | id in sessions && p in sessions[id].tickets :: p
  }

  function Returning(returned: set<(Intent, Receipt)>, i: Intent, reply: Reply): set<(Intent, Receipt)> {
    if reply.Found? then returned + {(i, reply.receipt)} else returned
  }

  ghost predicate Next(h: Hasher, generation: Id, w: World, l: Label, w': World) {
    match l
    case Opening(id, scope, pin) =>
      && id !in w.sessions && (pin.Some? ==> PinAccepted(generation, w.db, h.scope(scope), pin.value))
      && w' == w.(sessions := w.sessions[id := Session(scope, false, None, {})])
    case Inquiry(id, i, reply) =>
      && id in w.sessions && i.scope == w.sessions[id].scope && id in w'.sessions
      && InquireStep(h, generation, w.db, w.sessions[id], i, w'.sessions[id], reply)
      && w' == World(w.db, w.sessions[id := w'.sessions[id]], Returning(w.returned, i, reply))
    case Preparation(id, i, e, reply) =>
      && id in w.sessions && i.scope == w.sessions[id].scope && id in w'.sessions
      && PrepareStep(h, generation, w.db, w.sessions[id], i, e, w'.db, w'.sessions[id], reply)
      && w' == World(w'.db, w.sessions[id := w'.sessions[id]], w.returned)
    case Commitment(id, p, reply) =>
      && id in w.sessions && id in w'.sessions
      && CommitStep(h, generation, w.db, w.sessions[id], p, w'.db, w'.sessions[id], reply)
      && w' == World(w'.db, w.sessions[id := w'.sessions[id]], Returning(w.returned, IntentOf(p), reply))
    case Crash => w' == World(w.db, map[], w.returned)
  }

  /** A returned result is the recorded event of its intent. */
  ghost predicate ReturnsOk(h: Hasher, db: Db, returned: set<(Intent, Receipt)>) {
    forall r :: r in returned ==>
      IntentRecorded(h, db, r.0) && Tells(r.1, r.0.operation, db.events[r.0.operation])
  }

  ghost predicate SessionsOk(h: Hasher, generation: Id, db: Db, sessions: map<Id, Session>) {
    forall id :: id in sessions && sessions[id].known.Some? ==>
      PinAccepted(generation, db, h.scope(sessions[id].scope), sessions[id].known.value)
  }

  ghost predicate WorldOk(h: Hasher, generation: Id, w: World) {
    && LedgerOk(h, generation, w.db, TicketsIn(w.sessions))
    && ReturnsOk(h, w.db, w.returned)
    && SessionsOk(h, generation, w.db, w.sessions)
  }

  // ---------------------------------------------------------------- one step

  lemma {:induction false} ReturnsStay(h: Hasher, db: Db, db': Db, returned: set<(Intent, Receipt)>)
    requires ReturnsOk(h, db, returned) && Extends(db, db')
    ensures ReturnsOk(h, db', returned)
  {
  }

  lemma {:induction false} SessionsStay(h: Hasher, generation: Id, db: Db, db': Db, sessions: map<Id, Session>)
    requires SessionsOk(h, generation, db, sessions) && Extends(db, db')
    ensures SessionsOk(h, generation, db', sessions)
  {
  }

  lemma {:induction false} FewerTickets(h: Hasher, generation: Id, db: Db, a: set<Prepared>, b: set<Prepared>)
    requires LedgerOk(h, generation, db, a) && b <= a
    ensures LedgerOk(h, generation, db, b)
  {
  }

  /** Nothing in the ledger is ever lost. */
  lemma {:induction false} NextExtends(h: Hasher, generation: Id, w: World, l: Label, w': World)
    requires Next(h, generation, w, l, w')
    ensures Extends(w.db, w'.db) && w.returned <= w'.returned
  {
    hide Extends;
    hide PrepareStep;
    hide CommitStep;
    SelfExtends(w.db);
    if l.Preparation? {
      PrepareExtends(h, generation, w.db, w.sessions[l.id], l.intent, l.setting, w'.db, w'.sessions[l.id], l.reply);
    } else if l.Commitment? {
      CommitStepExtends(h, generation, w.db, w.sessions[l.id], l.ticket, w'.db, w'.sessions[l.id], l.reply);
    }
  }

  lemma {:induction false} NextKeepsLedger(h: Hasher, generation: Id, w: World, l: Label, w': World)
    requires LedgerOk(h, generation, w.db, TicketsIn(w.sessions)) && Next(h, generation, w, l, w')
    ensures LedgerOk(h, generation, w'.db, TicketsIn(w'.sessions))
  {
    hide LedgerOk;
    hide PinAccepted;
    hide Ready;
    hide Applied;
    hide Preparable;
    hide PreparedOf;
    var t, t' := TicketsIn(w.sessions), TicketsIn(w'.sessions);
    if l.Preparation? && l.reply.Issued? {
      assert t' <= t + {l.reply.ticket};
      PrepareKeepsLedger(h, generation, w.db, t, l.intent, l.setting);
      FewerTickets(h, generation, w'.db, t + {l.reply.ticket}, t');
    } else {
      assert t' <= t;
      if l.Preparation? && w'.db != w.db {
        ReserveKeepsLedger(h, generation, w.db, t, l.intent, l.setting);
      } else if l.Commitment? && w'.db != w.db {
        assert l.ticket in t;
        CommitKeepsLedger(h, generation, w.db, t, l.ticket);
      }
      FewerTickets(h, generation, w'.db, t, t');
    }
  }

  lemma {:induction false} NextKeepsReturns(h: Hasher, generation: Id, w: World, l: Label, w': World)
    requires WorldOk(h, generation, w) && Next(h, generation, w, l, w')
    requires Extends(w.db, w'.db) && LedgerOk(h, generation, w'.db, TicketsIn(w'.sessions))
    ensures ReturnsOk(h, w'.db, w'.returned) && SessionsOk(h, generation, w'.db, w'.sessions)
  {
    hide Extends;
    hide PinAccepted;
    hide Ready;
    hide Applied;
    hide Preparable;
    hide PreparedOf;
    hide Reserved;
    ReturnsStay(h, w.db, w'.db, w.returned);
    SessionsStay(h, generation, w.db, w'.db, w.sessions);
    assert Audited(h, generation, w'.db) && Constraints(w'.db);
    hide LedgerOk;
    hide Audited;
    hide Constraints;
    forall s
      ensures PinAccepted(generation, w'.db, s, PinOf(generation, w'.db, s))
    {
      OwnPinAccepted(h, generation, w'.db, s);
    }
  }

  /** Every step keeps the invariant. */
  lemma {:induction false} NextKeepsWorld(h: Hasher, generation: Id, w: World, l: Label, w': World)
    requires WorldOk(h, generation, w) && Next(h, generation, w, l, w')
    ensures WorldOk(h, generation, w')
  {
    NextKeepsLedger(h, generation, w, l, w');
    NextExtends(h, generation, w, l, w');
    NextKeepsReturns(h, generation, w, l, w');
  }

  // ---------------------------------------------------------------- whole runs

  ghost predicate IsRun(h: Hasher, generation: Id, run: seq<World>, labels: seq<Label>) {
    && |run| == |labels| + 1
    && forall k :: 0 <= k < |labels| ==> Next(h, generation, run[k], labels[k], run[k + 1])
  }

  lemma {:induction false} RunKeepsWorld(h: Hasher, generation: Id, run: seq<World>, labels: seq<Label>, k: nat)
    requires IsRun(h, generation, run, labels) && WorldOk(h, generation, run[0]) && k < |run|
    ensures WorldOk(h, generation, run[k])
  {
    hide WorldOk;
    hide Next;
    if k > 0 {
      RunKeepsWorld(h, generation, run, labels, k - 1);
      assert Next(h, generation, run[k - 1], labels[k - 1], run[k]);
      NextKeepsWorld(h, generation, run[k - 1], labels[k - 1], run[k]);
    }
  }

  lemma {:induction false} RunExtends(h: Hasher, generation: Id, run: seq<World>, labels: seq<Label>, j: nat, k: nat)
    requires IsRun(h, generation, run, labels) && j <= k < |run|
    ensures Extends(run[j].db, run[k].db) && run[j].returned <= run[k].returned
    decreases k - j
  {
    hide Next;
    hide Extends;
    if j == k {
      SelfExtends(run[j].db);
    } else {
      RunExtends(h, generation, run, labels, j, k - 1);
      assert Next(h, generation, run[k - 1], labels[k - 1], run[k]);
      NextExtends(h, generation, run[k - 1], labels[k - 1], run[k]);
      ExtendsTransitive(run[j].db, run[k - 1].db, run[k].db);
    }
  }

  /** The results two labels report for one operation. */
  ghost predicate Reports(l: Label, i: Intent, r: Receipt) {
    (l.Inquiry? && l.intent == i && l.reply == Found(r)) ||
    (l.Commitment? && IntentOf(l.ticket) == i && l.reply == Found(r))
  }

  lemma {:induction false} ReportedIsReturned(h: Hasher, generation: Id, w: World, l: Label, w': World, i: Intent, r: Receipt)
    requires Next(h, generation, w, l, w') && Reports(l, i, r)
    ensures (i, r) in w'.returned
  {
  }

  /**
   Exactly once, over every run from an audited store: if calls at any two points report
   results for one operation, they are the same result, and its event is in the store at
   the end of the run, unchanged.
   */
  lemma {:induction false} ExactlyOnce(h: Hasher, generation: Id, run: seq<World>, labels: seq<Label>, j: nat, k: nat,
                                       i: Intent, r: Receipt, i': Intent, r': Receipt)
    requires IsRun(h, generation, run, labels) && WorldOk(h, generation, run[0]) && j < |labels| && k < |labels|
    requires Reports(labels[j], i, r) && Reports(labels[k], i', r') && i.operation == i'.operation
    ensures r == r' && h.intent(i) == h.intent(i')
    ensures var last := run[|run| - 1].db;
            IntentRecorded(h, last, i) && Tells(r, i.operation, last.events[i.operation])
  {
    hide Next;
    hide Extends;
    hide Reports;
    hide LedgerOk;
    hide SessionsOk;
    var n := |run| - 1;
    assert Next(h, generation, run[j], labels[j], run[j + 1]);
    assert Next(h, generation, run[k], labels[k], run[k + 1]);
    ReportedIsReturned(h, generation, run[j], labels[j], run[j + 1], i, r);
    ReportedIsReturned(h, generation, run[k], labels[k], run[k + 1], i', r');
    RunExtends(h, generation, run, labels, j + 1, n);
    RunExtends(h, generation, run, labels, k + 1, n);
    RunKeepsWorld(h, generation, run, labels, n);
  }

  /** A recorded event stays, unchanged, in every later state of a run. */
  lemma {:induction false} EventsArePermanent(h: Hasher, generation: Id, run: seq<World>, labels: seq<Label>, j: nat, k: nat, op: Id)
    requires IsRun(h, generation, run, labels) && j <= k < |run| && op in run[j].db.events
    ensures op in run[k].db.events && run[k].db.events[op] == run[j].db.events[op]
  {
    RunExtends(h, generation, run, labels, j, k);
    hide IsRun;
  }

  ghost predicate Fails(l: Label) {
    (l.Inquiry? || l.Preparation? || l.Commitment?) && l.reply.Failed?
  }

  /**
   Only a commit adds an event, only its ticket's, and only when it returns that event,
   leaves its outcome open, or is struck between COMMIT and its return.
   */
  lemma {:induction false} OnlyCommitsAdd(h: Hasher, generation: Id, w: World, l: Label, w': World)
    requires Next(h, generation, w, l, w')
    ensures w'.db.events != w.db.events ==>
              && l.Commitment? && (l.reply.Found? || l.reply.OutcomeUnknown? || l.reply == Failed(PinReadRaised))
              && w'.db.events.Keys == w.db.events.Keys + {l.ticket.operation}
              && l.ticket.operation !in w.db.events
  {
    hide Collectable;
    hide Gathered;
    hide NewRows;
    if l.Commitment? && w'.db != w.db {
      ReadyBasics(h, generation, w.db, l.ticket);
      hide Ready;
    }
  }

  /**
   What a failure leaves behind, exactly: a commit that fails other than with an unknown
   outcome added its event if and only if the exception struck after COMMIT and outside the
   handler; a preparation left its reservation if and only if it struck after the
   reservation's COMMIT; every other failure leaves the store as it was. The sessions are
   untouched in all cases, so the applier goes on as if nothing had happened, and an
   inquiry of the same intent finds what was added.
   */
  lemma {:induction false} WhatFailuresLeave(h: Hasher, generation: Id, w: World, l: Label, w': World)
    requires Next(h, generation, w, l, w') && Fails(l)
    ensures w'.sessions == w.sessions && w'.returned == w.returned
    ensures w'.db.events != w.db.events <==> l.Commitment? && l.reply.why.PinReadRaised?
    ensures w'.db != w.db <==> (l.Commitment? && l.reply.why.PinReadRaised?) || (l.Preparation? && l.reply.why.SealRaised?)
    ensures l.Commitment? && l.reply.why.PinReadRaised? ==>
              && Ready(h, generation, w.db, l.ticket) && w'.db == Applied(h, w.db, l.ticket)
              && IntentRecorded(h, w'.db, IntentOf(l.ticket))
    ensures l.Preparation? && l.reply.why.SealRaised? ==> w'.db == Reserved(h, w.db, l.intent, l.setting)
  {
    hide Preparable;
    hide Ready;
    hide NewRows;
    if l.Preparation? && l.reply.why.SealRaised? {
      assert l.setting.reservation in w'.db.nonces;
    }
  }

  /** Once its outcome is unknown an applier refuses every call until the process is gone. */
  lemma {:induction false} UncertainRefuses(h: Hasher, generation: Id, run: seq<World>, labels: seq<Label>, id: Id, j: nat, k: nat)
    requires IsRun(h, generation, run, labels) && j <= k < |labels|
    requires id in run[j].sessions && run[j].sessions[id].uncertain
    requires forall n :: j <= n <= k ==> !labels[n].Crash?
    ensures id in run[k].sessions && run[k].sessions[id].uncertain
    ensures (labels[k].Inquiry? || labels[k].Preparation? || labels[k].Commitment?) && labels[k].id == id ==>
              labels[k].reply.Failed? && run[k + 1].db == run[k].db
    decreases k - j
  {
    hide Preparable;
    hide PreparedOf;
    hide Ready;
    hide Applied;
    hide PinAccepted;
    if k > j {
      UncertainRefuses(h, generation, run, labels, id, j, k - 1);
      assert Next(h, generation, run[k - 1], labels[k - 1], run[k]);
    }
    assert Next(h, generation, run[k], labels[k], run[k + 1]);
  }
}
