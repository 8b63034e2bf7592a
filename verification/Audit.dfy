/** `audit_records` as it runs: one pass over the events in scope and revision order, then the table checks. */
module Audit {
  import opened Ordering
  import opened Replay
  import opened Ledger

  predicate Before(a: EventRow, b: EventRow) {
    a.scope < b.scope || (a.scope == b.scope && a.revision < b.revision)
  }

  /** The result of `SELECT * FROM document_apply_events ORDER BY scope,revision`, by operation. */
  ghost predicate OrderedBy(db: Db, rows: seq<Id>) {
    && (forall op :: op in rows <==> op in db.events)
    && (forall i, j :: 0 <= i < j < |rows| ==> rows[i] in db.events && rows[j] in db.events
                                               && Before(db.events[rows[i]], db.events[rows[j]]))
  }

  /** `last`: for each scope met so far, its latest row. */
  ghost predicate LastRows(db: Db, rows: seq<Id>, i: nat, last: map<Digest, Id>)
    requires i <= |rows| && forall op :: op in rows ==> op in db.events
  {
    && (forall s :: s in last ==> last[s] in rows[..i] && db.events[last[s]].scope == s)
    && (forall j :: 0 <= j < i ==> db.events[rows[j]].scope in last
                                   && db.events[rows[j]].revision <= db.events[last[db.events[rows[j]].scope]].revision)
  }

  /** `first` and `seen_inputs`: the inputs listed so far. */
  ghost predicate SeenInputs(db: Db, rows: seq<Id>, i: nat, seen: set<(Digest, Id)>)
    requires i <= |rows| && forall op :: op in rows ==> op in db.events
  {
    forall s, x :: (s, x) in seen <==> exists j :: 0 <= j < i && db.events[rows[j]].scope == s && x in InputsOf(db.events[rows[j]])
  }

  lemma {:induction false} EarlierRow(db: Db, rows: seq<Id>, i: nat, q: Id) returns (j: nat)
    requires OrderedBy(db, rows) && i < |rows| && q in db.events
    requires db.events[q].scope == db.events[rows[i]].scope && db.events[q].revision < db.events[rows[i]].revision
    ensures j < i && rows[j] == q
  {
    assert q in rows;
    j :| 0 <= j < |rows| && rows[j] == q;
    assert forall k :: i < k < |rows| ==> Before(db.events[rows[i]], db.events[rows[k]]);
  }

  lemma {:induction false} LastIsEarlier(db: Db, rows: seq<Id>, i: nat, last: map<Digest, Id>)
    requires OrderedBy(db, rows) && i < |rows| && LastRows(db, rows, i, last)
    ensures var e := db.events[rows[i]];
            e.scope in last ==> db.events[last[e.scope]].revision < e.revision
  {
  }

  /** The comparison with the previous row of the scope decides whether the event is chained. */
  lemma {:induction false} ChainDecided(h: Hasher, generation: Id, db: Db, rows: seq<Id>, i: nat, last: map<Digest, Id>)
    requires Constraints(db) && OrderedBy(db, rows) && i < |rows| && LastRows(db, rows, i, last)
    requires forall j :: 0 <= j < i ==> EventOk(h, generation, db, rows[j])
    ensures var e := db.events[rows[i]];
            Chained(db, e) <==>
              if e.scope in last then Follows(db.events[last[e.scope]], e) else e.revision == 1 && e.previousDigest == 0
  {
    var e := db.events[rows[i]];
    LastIsEarlier(db, rows, i, last);
    if e.scope in last {
      var j :| 0 <= j < i && rows[j] == last[e.scope];
      assert EventOk(h, generation, db, rows[j]);
    }
    if Chained(db, e) && e.revision != 1 {
      var p :| p in db.events && Follows(db.events[p], e);
      var j := EarlierRow(db, rows, i, p);
      assert SamePlace(db.events[last[e.scope]], db.events[p]);
    }
  }

  lemma {:induction false} FirstDecided(db: Db, rows: seq<Id>, i: nat, seen: set<(Digest, Id)>, x: Id)
    requires OrderedBy(db, rows) && i < |rows| && SeenInputs(db, rows, i, seen)
    ensures FirstSeen(db, db.events[rows[i]], x) <==> (db.events[rows[i]].scope, x) !in seen
  {
  }

  method CheckParse(h: Hasher, m: Metadata) returns (ok: bool)
    ensures ok <==> Parses(h, m)
  {
    var r := m.recording;
    var inners := set x | x in r.inputs :: r.inputs[x].inner;
    ok := 1 <= m.revision <= MAX_EVENTS && m.expectedRevision == m.revision - 1
          && h.scope(m.scope) == m.scopeDigest
          && |r.heads| <= MAX_LIST && |r.targets| <= MAX_LIST && 1 <= |r.inputs| <= MAX_LIST
          && (forall x, y :: x in r.inputs && y in r.inputs && r.inputs[x].inner == r.inputs[y].inner ==> x == y)
          && r.heads <= inners && r.targets <= r.inputs.Keys;
  }

  method CheckBound(h: Hasher, generation: Id, op: Id, e: EventRow) returns (ok: bool)
    ensures ok <==> Bound(h, generation, op, e)
  {
    hide Parses;
    if h.record(e.record) != e.digest { return false; }
    var m := e.record.meta;
    ok := CheckParse(h, m);
    ok := ok && m.generation == generation && m.scopeDigest == e.scope && m.operation == op && m.revision == e.revision
          && m.requestDigest == e.requestDigest && m.previousDigest == e.previousDigest;
  }

  /** The loop over one event's inputs. */
  method CheckInputs(h: Hasher, db: Db, op: Id, e: EventRow, seen: set<(Digest, Id)>) returns (ok: bool)
    ensures ok <==> forall x :: x in InputsOf(e) ==>
              InputHeld(h, db, e, x) && ((e.scope, x) !in seen ==> Stored(db, e.scope)[x].firstEvent == op)
  {
    var inputs, stored := InputsOf(e), Stored(db, e.scope);
    var rest := inputs.Keys;
    while rest != {}
      invariant rest <= inputs.Keys
      invariant forall x :: x in inputs && x !in rest ==>
        InputHeld(h, db, e, x) && ((e.scope, x) !in seen ==> stored[x].firstEvent == op)
    {
      var x :| x in rest;
      if x !in stored { return false; }
      var r := stored[x];
      if r.inner != inputs[x].inner || h.base.input(r.raw) != r.digest || r.digest != inputs[x].digest
         || r.evidence != e.record.meta.evidence { return false; }
      if (e.scope, x) !in seen && r.firstEvent != op { return false; }
      rest := rest - {x};
    }
    ok := true;
  }

  method CheckChain(db: Db, e: EventRow, last: map<Digest, Id>) returns (ok: bool)
    requires forall s :: s in last ==> last[s] in db.events && db.events[last[s]].scope == s
    ensures ok <==> if e.scope in last then Follows(db.events[last[e.scope]], e) else e.revision == 1 && e.previousDigest == 0
  {
    if e.scope !in last { return e.revision == 1 && e.previousDigest == 0; }
    var p := db.events[last[e.scope]];
    ok := e.revision == p.revision + 1 && e.previousDigest == p.digest
          && p.record.meta.evidence == e.record.meta.evidence && InputsOf(p).Keys < InputsOf(e).Keys;
  }

  /** One turn of the event loop decides `EventOk`. */
  method CheckEvent(h: Hasher, generation: Id, db: Db, ghost rows: seq<Id>, ghost i: nat, op: Id,
                    last: map<Digest, Id>, seen: set<(Digest, Id)>) returns (ok: bool)
    requires Constraints(db) && OrderedBy(db, rows) && i < |rows| && op == rows[i] && op in db.events
    requires LastRows(db, rows, i, last) && SeenInputs(db, rows, i, seen)
    requires forall s :: s in last ==> last[s] in db.events && db.events[last[s]].scope == s
    requires forall j :: 0 <= j < i ==> EventOk(h, generation, db, rows[j])
    ensures ok <==> EventOk(h, generation, db, op)
  {
    var e := db.events[op];
    ChainDecided(h, generation, db, rows, i, last);
    forall x: Id
      ensures FirstSeen(db, e, x) <==> (e.scope, x) !in seen
    {
      FirstDecided(db, rows, i, seen, x);
    }
    hide Constraints;
    hide OrderedBy;
    hide LastRows;
    hide SeenInputs;
    hide Chained;
    hide Bound;
    hide FirstSeen;
    hide Follows;
    ok := CheckBound(h, generation, op, e);
    if !ok { return; }
    ok := CheckChain(db, e, last);
    if !ok { return; }
    ok := CheckInputs(h, db, op, e, seen);
    if !ok { return; }
    var m := e.record.meta;
    ok := m.reservation in db.nonces &&
          db.nonces[m.reservation] == NonceRow(e.scope, m.keyContext, e.record.nonce, e.requestDigest, Some(op));
  }

  lemma {:induction false} StepRows(db: Db, rows: seq<Id>, i: nat, last: map<Digest, Id>, seen: set<(Digest, Id)>)
    requires OrderedBy(db, rows) && i < |rows| && LastRows(db, rows, i, last) && SeenInputs(db, rows, i, seen)
    ensures var e := db.events[rows[i]];
            && LastRows(db, rows, i + 1, last[e.scope := rows[i]])
            && SeenInputs(db, rows, i + 1, seen + set x | x in InputsOf(e) :: (e.scope, x))
  {
    hide LastRows;
    hide SeenInputs;
    StepLast(db, rows, i, last);
    StepSeen(db, rows, i, seen);
  }

  lemma {:induction false} StepLast(db: Db, rows: seq<Id>, i: nat, last: map<Digest, Id>)
    requires OrderedBy(db, rows) && i < |rows| && LastRows(db, rows, i, last)
    ensures LastRows(db, rows, i + 1, last[db.events[rows[i]].scope := rows[i]])
  {
    LastIsEarlier(db, rows, i, last);
    hide OrderedBy;
    assert rows[..i + 1] == rows[..i] + [rows[i]];
  }

  lemma {:induction false} StepSeen(db: Db, rows: seq<Id>, i: nat, seen: set<(Digest, Id)>)
    requires OrderedBy(db, rows) && i < |rows| && SeenInputs(db, rows, i, seen)
    ensures var e := db.events[rows[i]];
            SeenInputs(db, rows, i + 1, seen + set x | x in InputsOf(e) :: (e.scope, x))
  {
  }

  // ---------------------------------------------------------------- the closing checks

  ghost predicate LastOfAll(db: Db, last: map<Digest, Id>) {
    && (forall op :: op in db.events ==> db.events[op].scope in last)
    && (forall s :: s in last ==> last[s] in db.events && db.events[last[s]].scope == s && IsLast(db, last[s]))
  }

  lemma {:induction false} FrontiersDecided(db: Db, last: map<Digest, Id>)
    requires Constraints(db) && LastOfAll(db, last)
    ensures FrontiersOk(db) <==>
              && last.Keys == db.frontiers.Keys
              && forall s :: s in last ==> db.frontiers[s] == FrontierOf(last[s], db.events[last[s]])
  {
    if FrontiersOk(db) {
      forall s | s in db.frontiers
        ensures s in last && db.frontiers[s] == FrontierOf(last[s], db.events[last[s]])
      {
        assert FrontierOk(db, s);
        assert SamePlace(db.events[db.frontiers[s].operation], db.events[last[s]]);
      }
      forall s | s in last
        ensures s in db.frontiers
      {
        assert db.events[last[s]].scope == s;
      }
      assert last.Keys == db.frontiers.Keys;
    }
  }

  /** `set(last)==set(frontiers)` and the comparison of each frontier with its last row. */
  method CheckFrontiers(db: Db, last: map<Digest, Id>) returns (ok: bool)
    requires Constraints(db) && LastOfAll(db, last)
    ensures ok <==> FrontiersOk(db)
  {
    FrontiersDecided(db, last);
    hide Constraints;
    hide FrontiersOk;
    hide IsLast;
    if last.Keys != db.frontiers.Keys { return false; }
    var rest := last.Keys;
    while rest != {}
      invariant rest <= last.Keys
      invariant forall s :: s in last && s !in rest ==> db.frontiers[s] == FrontierOf(last[s], db.events[last[s]])
    {
      var s :| s in rest;
      if db.frontiers[s] != FrontierOf(last[s], db.events[last[s]]) { return false; }
      rest := rest - {s};
    }
    ok := true;
  }

  /** At the end `last` holds the last event of every scope. */
  lemma {:induction false} LastIsLast(db: Db, rows: seq<Id>, last: map<Digest, Id>)
    requires OrderedBy(db, rows) && LastRows(db, rows, |rows|, last)
    ensures LastOfAll(db, last)
  {
  }

  /** `seen_inputs==set(inputs)`, given that every listed input is held. */
  method CheckListed(db: Db, rows: seq<Id>, seen: set<(Digest, Id)>) returns (ok: bool)
    requires OrderedBy(db, rows) && SeenInputs(db, rows, |rows|, seen)
    ensures ok <==> InputsListed(db)
  {
    ok := forall s | s in db.inputs :: forall x | x in db.inputs[s] :: (s, x) in seen;
    ListedDecided(db, rows, seen);
  }

  lemma {:induction false} ListedDecided(db: Db, rows: seq<Id>, seen: set<(Digest, Id)>)
    requires OrderedBy(db, rows) && SeenInputs(db, rows, |rows|, seen)
    ensures forall s: Digest, x: Id :: (s, x) in seen <==> InputListed(db, s, x)
  {
  }

  /** The event loop. */
  method CheckEvents(h: Hasher, generation: Id, db: Db, rows: seq<Id>)
    returns (ok: bool, last: map<Digest, Id>, seen: set<(Digest, Id)>, consumed: set<Id>)
    requires Constraints(db) && OrderedBy(db, rows) && forall op :: op in rows ==> op in db.events
    ensures ok <==> forall op :: op in rows ==> EventOk(h, generation, db, op)
    ensures ok ==> LastRows(db, rows, |rows|, last) && SeenInputs(db, rows, |rows|, seen) && consumed == Elems(rows)
  {
    last, seen, consumed := map[], {}, {};
    assert LastRows(db, rows, 0, last) && SeenInputs(db, rows, 0, seen);
    hide EventOk;
    hide Constraints;
    hide OrderedBy;
    hide SeenInputs;
    for i := 0 to |rows|
      invariant LastRows(db, rows, i, last) && SeenInputs(db, rows, i, seen) && consumed == Elems(rows[..i])
      invariant forall j :: 0 <= j < i ==> EventOk(h, generation, db, rows[j])
    {
      var op := rows[i];
      assert op in rows;
      assert Elems(rows[..i + 1]) == Elems(rows[..i]) + {op} by {
        assert rows[..i + 1] == rows[..i] + [op];
      }
      ok := CheckEvent(h, generation, db, rows, i, op, last, seen);
      if !ok { return; }
      StepRows(db, rows, i, last, seen);
      hide LastRows;
      var e := db.events[op];
      seen := seen + set x | x in InputsOf(e) :: (e.scope, x);
      last := last[e.scope := op];
      consumed := consumed + {op};
    }
    assert rows[..|rows|] == rows;
    ok := true;
  }

  /**
   The pass over the ordered rows and the table checks accept a database exactly when it
   satisfies the order-free ledger invariant.
   */
  method AuditRecords(h: Hasher, generation: Id, db: Db, rows: seq<Id>) returns (ok: bool)
    requires Constraints(db) && OrderedBy(db, rows)
    ensures ok <==> Audited(h, generation, db)
  {
    assert forall op :: op in rows <==> op in db.events;
    hide EventOk;
    hide Constraints;
    hide OrderedBy;
    hide InputsListed;
    hide FrontiersOk;
    hide LastRows;
    hide SeenInputs;
    var last, seen, consumed;
    ok, last, seen, consumed := CheckEvents(h, generation, db, rows);
    if !ok { return; }
    LastIsLast(db, rows, last);
    ok := CheckListed(db, rows, seen);
    if !ok { return; }
    ok := CheckFrontiers(db, last);
    if !ok { return; }
    ok := forall n | n in db.nonces :: db.nonces[n].usedBy.None? || db.nonces[n].usedBy.value in consumed;
  }
}
