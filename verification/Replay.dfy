/** Rebuilding an applied request from its record: `_replay_request` of `product/runtime_read/application.py`. */
module Replay {
  import opened Ordering
  import opened Contracts
  import opened Selection
  import opened CausalCheck
  import opened Collect

  type Digest = nat

  /** The digests of stored input bytes and of a request. */
  datatype Hashing = Hashing(input: Raw -> Digest, request: ApplyRequest -> Digest)

  datatype InputRef = InputRef(inner: Id, digest: Digest)

  /** The part of an event's metadata that a replay reads; inputs by envelope, heads and targets as sets. */
  datatype Recording = Recording(inputs: map<Id, InputRef>, targets: set<Id>, heads: set<Id>, requestDigest: Digest)

  function RefsOf(h: Hashing, records: map<Id, InputRecord>): map<Id, InputRef> {
    map e | e in records :: InputRef(records[e].inner, h.input(records[e].raw))
  }

  /** What `prepare` writes down about a collected request. */
  function RecordingOf(h: Hashing, c: Collected, targets: set<Id>): Recording {
    Recording(RefsOf(h, c.records), targets, c.request.expectedHeads, h.request(c.request))
  }

  /** `p` is what the recorded inputs open to, in rows that still carry the recorded bytes. */
  ghost predicate Reopens(auth: Authority, h: Hashing, rows: map<Id, Raw>, inputs: map<Id, InputRef>, p: Pool) {
    && ValidPool(p) && p.changes.Keys == inputs.Keys <= rows.Keys
    && (forall e :: e in inputs ==>
          && h.input(rows[e]) == inputs[e].digest && p.changes[e].inner == inputs[e].inner
          && auth.open(e, rows[e]) == Some(p.changes[e]))
  }

  ghost predicate Replays(auth: Authority, h: Hashing, rows: map<Id, Raw>, m: Recording, previous: set<Id>, p: Pool, request: ApplyRequest) {
    var roots := m.targets + previous;
    var ids := Order(p, roots);
    && Reopens(auth, h, rows, m.inputs, p)
    && Selected(p, roots, ids) && Elems(ids) == p.changes.Keys
    && request == ApplyRequest(RequestOf(p, ids).changes, m.heads)
    && h.request(request) == m.requestDigest
  }

  /** The reopening loop after the envelopes `seen`. */
  ghost predicate Reopening(auth: Authority, h: Hashing, rows: map<Id, Raw>, inputs: map<Id, InputRef>, seen: set<Id>,
                            p: Pool, slots: map<(Id, nat), Id>) {
    && seen <= inputs.Keys && Indexed(auth, rows, seen, p, slots)
    && forall e :: e in seen ==> h.input(rows[e]) == inputs[e].digest && p.changes[e].inner == inputs[e].inner
  }

  lemma {:induction false} TwoClaims(auth: Authority, h: Hashing, rows: map<Id, Raw>, inputs: map<Id, InputRef>, a: Id, b: Id)
    requires a in inputs && b in inputs && a != b && a in rows && b in rows
    requires auth.open(a, rows[a]).Some? && auth.open(b, rows[b]).Some?
    requires var x, y := auth.open(a, rows[a]).value, auth.open(b, rows[b]).value; x.inner == y.inner || SameSlot(x, y)
    ensures forall q :: !Reopens(auth, h, rows, inputs, q)
  {
  }

  /** Two envelopes that claim one inner hash or one author slot never reopen together. */
  lemma {:induction false} ReopeningClash(auth: Authority, h: Hashing, rows: map<Id, Raw>, inputs: map<Id, InputRef>, seen: set<Id>,
                                          p: Pool, slots: map<(Id, nat), Id>, e: Id, ch: Change)
    requires Reopening(auth, h, rows, inputs, seen, p, slots) && e in inputs && e !in seen && e in rows
    requires auth.open(e, rows[e]) == Some(ch)
    requires ch.inner in p.inners || (ch.actor, ch.sequence) in slots
    ensures forall q :: !Reopens(auth, h, rows, inputs, q)
  {
    hide Reopens;
    if ch.inner in p.inners {
      TwoClaims(auth, h, rows, inputs, p.inners[ch.inner], e);
    } else {
      TwoClaims(auth, h, rows, inputs, slots[(ch.actor, ch.sequence)], e);
    }
  }

  lemma {:induction false} ReopeningStep(auth: Authority, h: Hashing, rows: map<Id, Raw>, inputs: map<Id, InputRef>, seen: set<Id>,
                                         p: Pool, slots: map<(Id, nat), Id>, e: Id, ch: Change)
    requires Reopening(auth, h, rows, inputs, seen, p, slots) && e in inputs && e !in seen && e in rows
    requires h.input(rows[e]) == inputs[e].digest && auth.open(e, rows[e]) == Some(ch) && ch.inner == inputs[e].inner
    requires ch.inner !in p.inners && (ch.actor, ch.sequence) !in slots
    ensures Reopening(auth, h, rows, inputs, seen + {e}, Pool(p.changes[e := ch], p.inners[ch.inner := e]),
                      slots[(ch.actor, ch.sequence) := e])
  {
    IndexedStep(auth, rows, seen, p, slots, e, ch);
    IndexedKeys(auth, rows, seen, p, slots);
    hide Indexed;
  }

  lemma {:induction false} IndexedKeys(auth: Authority, rows: map<Id, Raw>, seen: set<Id>, p: Pool, slots: map<(Id, nat), Id>)
    requires Indexed(auth, rows, seen, p, slots)
    ensures seen <= rows.Keys && seen <= p.changes.Keys
  {
  }

  method ReopenInputs(auth: Authority, h: Hashing, rows: map<Id, Raw>, inputs: map<Id, InputRef>) returns (r: Option<Pool>)
    ensures r.Some? ==> Reopens(auth, h, rows, inputs, r.value)
    ensures r.None? ==> forall p :: !Reopens(auth, h, rows, inputs, p)
  {
    var p, slots: map<(Id, nat), Id>, rest := Pool(map[], map[]), map[], inputs.Keys;
    hide ValidPool;
    assert Reopening(auth, h, rows, inputs, {}, p, slots) by { NothingReopened(auth, h, rows, inputs); }
    assert inputs.Keys - rest == {};
    while rest != {}
      invariant rest <= inputs.Keys && Reopening(auth, h, rows, inputs, inputs.Keys - rest, p, slots)
    {
      var e :| e in rest;
      if e !in rows || h.input(rows[e]) != inputs[e].digest { return None; }
      var opening := auth.open(e, rows[e]);
      if opening.None? || opening.value.inner != inputs[e].inner { return None; }
      hide Reopens;
      hide Reopening;
      var ch := opening.value;
      if ch.inner in p.inners || (ch.actor, ch.sequence) in slots {
        ReopeningClash(auth, h, rows, inputs, inputs.Keys - rest, p, slots, e, ch);
        return None;
      }
      ReopeningStep(auth, h, rows, inputs, inputs.Keys - rest, p, slots, e, ch);
      assert inputs.Keys - (rest - {e}) == inputs.Keys - rest + {e};
      p := Pool(p.changes[e := ch], p.inners[ch.inner := e]);
      slots, rest := slots[(ch.actor, ch.sequence) := e], rest - {e};
    }
    assert inputs.Keys - rest == inputs.Keys;
    r := Some(p);
  }

  lemma {:induction false} NothingReopened(auth: Authority, h: Hashing, rows: map<Id, Raw>, inputs: map<Id, InputRef>)
    ensures Reopening(auth, h, rows, inputs, {}, Pool(map[], map[]), map[])
  {
  }

  /** A replay returns a request exactly when the record still determines one, and then that one. */
  method RunReplay(auth: Authority, h: Hashing, rows: map<Id, Raw>, m: Recording, previous: set<Id>)
    returns (r: Option<ApplyRequest>)
    ensures r.Some? ==> exists p :: Replays(auth, h, rows, m, previous, p, r.value)
    ensures r.None? ==> forall p, request :: !Replays(auth, h, rows, m, previous, p, request)
    ensures r.Some? ==> m.inputs.Keys <= rows.Keys
                        && CausalRequest(r.value) && Carries(auth, Restrict(rows, m.inputs.Keys), r.value.changes) && r.value.expectedHeads == m.heads
  {
    hide Reopens;
    hide Select;
    hide Order;
    hide ValidPool;
    hide ParentsEarlier;
    var opening := ReopenInputs(auth, h, rows, m.inputs);
    if opening.None? { return None; }
    var p := opening.value;
    ReopensUnique(auth, h, rows, m.inputs, p);
    ReopensValid(auth, h, rows, m.inputs, p);
    var out, ids := RunSelect(p, m.targets + previous);
    if !out.Done? { return None; }
    if Elems(ids) != p.changes.Keys { return None; }
    var request := ApplyRequest(RequestOf(p, ids).changes, m.heads);
    hide RequestOf;
    if h.request(request) != m.requestDigest { return None; }
    assert Replays(auth, h, rows, m, previous, p, request);
    ReplayedIsCausal(auth, h, rows, m, previous, p, request);
    r := Some(request);
  }

  function Restrict(rows: map<Id, Raw>, keys: set<Id>): map<Id, Raw>
    requires keys <= rows.Keys
  {
    map e | e in keys :: rows[e]
  }

  /** A replayed request is causal and carried by exactly the recorded inputs. */
  lemma {:induction false} ReplayedIsCausal(auth: Authority, h: Hashing, rows: map<Id, Raw>, m: Recording, previous: set<Id>,
                                            p: Pool, request: ApplyRequest)
    requires Replays(auth, h, rows, m, previous, p, request)
    ensures m.inputs.Keys <= rows.Keys && CausalRequest(request)
    ensures Carries(auth, Restrict(rows, m.inputs.Keys), request.changes) && request.expectedHeads == m.heads
  {
    var roots := m.targets + previous;
    var ids := Order(p, roots);
    hide Select;
    hide Order;
    hide ParentsEarlier;
    hide ValidPool;
    hide RequestOf;
    hide CausalRequest;
    hide Carries;
    RequestIsCausal(p, roots, ids);
    CausalByChanges(RequestOf(p, ids), request);
    RestrictOpens(auth, h, rows, m.inputs, p);
    assert Restrict(rows, m.inputs.Keys).Keys == Elems(ids);
    RequestCarries(auth, Restrict(rows, m.inputs.Keys), p, ids);
  }

  lemma {:induction false} CausalByChanges(a: ApplyRequest, b: ApplyRequest)
    requires a.changes == b.changes && CausalRequest(a)
    ensures CausalRequest(b)
  {
  }

  lemma {:induction false} RestrictOpens(auth: Authority, h: Hashing, rows: map<Id, Raw>, inputs: map<Id, InputRef>, p: Pool)
    requires Reopens(auth, h, rows, inputs, p)
    ensures inputs.Keys <= rows.Keys && p.changes.Keys == inputs.Keys
    ensures forall e :: e in inputs ==> auth.open(e, Restrict(rows, inputs.Keys)[e]) == Some(p.changes[e])
  {
  }

  lemma {:induction false} ReopensValid(auth: Authority, h: Hashing, rows: map<Id, Raw>, inputs: map<Id, InputRef>, p: Pool)
    requires Reopens(auth, h, rows, inputs, p)
    ensures ValidPool(p)
  {
  }

  lemma {:induction false} ReopensUnique(auth: Authority, h: Hashing, rows: map<Id, Raw>, inputs: map<Id, InputRef>, p: Pool)
    requires Reopens(auth, h, rows, inputs, p)
    ensures forall q :: Reopens(auth, h, rows, inputs, q) ==> q == p
  {
  }

  // ---------------------------------------------------------------- refinement

  /** The recorded inputs reopen to exactly the recorded part of the collecting pool. */
  lemma {:induction false} RecordReopens(auth: Authority, h: Hashing, raw: map<Id, Raw>, p: Pool, roots: set<Id>, ids: seq<Id>,
                                         auth': Authority, rows: map<Id, Raw>)
    requires OpensTo(auth, raw, p) && Selected(p, roots, ids)
    requires forall e :: e in ids ==> e in rows && rows[e] == raw[e] && auth'.open(e, raw[e]) == auth.open(e, raw[e])
    ensures Reopens(auth', h, rows, RefsOf(h, RecordsOf(p, raw, ids)), Recorded(p, ids))
  {
    hide Select;
    hide ParentsEarlier;
    hide ValidPool;
    hide Heads;
    hide Hashes;
    RecordedPool(p, roots, ids);
  }

  /**
   Replay refines the original. Whatever else the pool held, replaying over the recorded
   inputs alone, with the previous event's inputs and the recorded targets as roots, runs
   the same traversal and rebuilds the very request that was collected; the digest check
   cannot fail. The rows must still hold the recorded bytes and the authority must still
   open them to the same changes.
   */
  lemma {:induction false} ReplayRefinesCollect(auth: Authority, h: Hashing, external: map<Id, Raw>, inputs: map<Id, Raw>, targets: set<Id>,
                                                auth': Authority, rows: map<Id, Raw>)
    requires Collectable(auth, external, inputs, targets)
    requires var records := Gathered(auth, external, inputs, targets).records;
             forall e :: e in records ==>
               e in rows && rows[e] == records[e].raw && auth'.open(e, rows[e]) == auth.open(e, rows[e])
    ensures var c := Gathered(auth, external, inputs, targets);
            exists p :: Replays(auth', h, rows, RecordingOf(h, c, targets), inputs.Keys, p, c.request)
  {
    hide CausallySound;
    hide Select;
    hide ParentsEarlier;
    hide ValidPool;
    hide Total;
    hide Order;
    var raw := external + inputs;
    var p := Opened(auth, raw);
    var roots := targets + inputs.Keys;
    var ids := Order(p, roots);
    var c := Gathered(auth, external, inputs, targets);
    forall e | e in ids
      ensures e in rows && rows[e] == raw[e] && auth'.open(e, raw[e]) == auth.open(e, raw[e])
    {
      assert e in c.records;
    }
    RecordReopens(auth, h, raw, p, roots, ids, auth', rows);
    RecordingReplays(auth', h, raw, p, roots, ids, rows, targets, inputs.Keys);
  }

  lemma {:induction false} RecordingReplays(auth': Authority, h: Hashing, raw: map<Id, Raw>, p: Pool, roots: set<Id>, ids: seq<Id>,
                                            rows: map<Id, Raw>, targets: set<Id>, previous: set<Id>)
    requires Selected(p, roots, ids) && roots == targets + previous && forall e :: e in ids ==> e in raw
    requires Reopens(auth', h, rows, RefsOf(h, RecordsOf(p, raw, ids)), Recorded(p, ids))
    ensures var c := Collected(RequestOf(p, ids), RecordsOf(p, raw, ids));
            Replays(auth', h, rows, RecordingOf(h, c, targets), previous, Recorded(p, ids), c.request)
  {
    RecordedSelects(p, roots, ids);
    RecordedPool(p, roots, ids);
    OrderIs(Recorded(p, ids), roots, ids);
    SameChanges(p, roots, ids);
    hide Select;
    hide Order;
    hide ParentsEarlier;
    hide ValidPool;
    hide Heads;
    hide Hashes;
    hide Reopens;
    hide Recorded;
    hide RecordsOf;
    hide RefsOf;
  }

  lemma {:induction false} SameChanges(p: Pool, roots: set<Id>, ids: seq<Id>)
    requires Selected(p, roots, ids)
    ensures forall e :: e in ids ==> e in Recorded(p, ids).changes
    ensures Elems(ids) == Recorded(p, ids).changes.Keys
    ensures RequestOf(Recorded(p, ids), ids).changes == RequestOf(p, ids).changes
  {
    hide Select;
    hide ParentsEarlier;
    hide ValidPool;
    assert forall i :: 0 <= i < |ids| ==> ids[i] in ids;
  }

  lemma {:induction false} OrderIs(p: Pool, roots: set<Id>, ids: seq<Id>)
    requires Selected(p, roots, ids)
    ensures Order(p, roots) == ids
  {
  }
}
