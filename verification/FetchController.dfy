/** The class `FetchApplicationController` over a `DocumentApplier` and its store. */
module FetchController {
  import opened Ordering
  import opened Ledger
  import opened Pins
  import opened Tickets
  import opened Applier
  import opened Controller

  class FetchApplicationController {
    const h: Hasher
    const digest: Observation -> Id
    const scope: Id
    const targets: seq<Id>
    const application: DocumentApplier?
    var closed: bool
    var busy: bool
    var sequence: nat
    var last: Option<Observation>
    var operation: Operation
    var unresolved: Option<Intent>
    var validation: map<Id, Id>
    var validationRevision: Option<Id>
    ghost var log: seq<Call>
    ghost var used: seq<Observation>
    ghost var checked: set<(Id, Id, Id)>

    ghost function Footprint(): set<object> {
      if application == null then {} else {application, application.store}
    }

    ghost predicate TokensOk()
      reads this
    {
      && Increasing(used) && Below(used, sequence + 1)
      && (last.Some? ==> Below(used, last.value.sequence) && last.value.sequence <= sequence && VerdictsOk(last.value, checked))
    }

    ghost predicate ValidationOk()
      reads this
    {
      forall e :: e in validation ==>
        validationRevision.Some? && (e, validation[e], validationRevision.value) in checked
    }

    ghost predicate ApplicationOk()
      reads this, Footprint()
    {
      if application == null then log == []
      else application.Valid() && application.scope == scope && application.h == h
           && Recorded(h, application.store.durable, log, unresolved)
    }

    ghost predicate Valid()
      reads this, Footprint()
    {
      Distinct(targets) && 1 <= |targets| <= 64 && Safe(log) && Settled(log, unresolved) && TokensOk() && ValidationOk() && ApplicationOk()
    }

    constructor (h: Hasher, digest: Observation -> Id, scope: Id, targets: seq<Id>, application: DocumentApplier?)
      requires Distinct(targets) && 1 <= |targets| <= 64
      requires application != null ==> application.Valid() && application.scope == scope && application.h == h
      ensures Valid() && !busy && !closed && last == None && unresolved == None && log == [] && used == []
      ensures this.application == application && this.targets == targets && this.digest == digest
    {
      this.h, this.digest, this.scope, this.targets, this.application := h, digest, scope, targets, application;
      closed, busy, sequence, last, unresolved := false, false, 0, None, None;
      operation := Operation(None, NotRequested, None, None, None);
      validation, validationRevision := map[], None;
      log, used, checked := [], [], {};
    }

    function IntentFor(op: Id, expected: nat): (i: Intent)
      ensures i.scope == scope && i.operation == op && i.expectedRevision == expected
      ensures forall e :: e in i.targets <==> e in targets
    {
      Intent(scope, op, Elems(targets), expected)
    }

    /** The token is that of the latest observation, which is still current. */
    ghost predicate Granted(token: Id, current: Option<Id>)
      reads this`busy, this`closed, this`last
    {
      !busy && !closed && last.Some? && digest(last.value) == token && current == Some(last.value.local)
    }

    /** An apply call that gets as far as consuming its observation. */
    ghost predicate Commanded(op: Id, expected: nat, token: Id, current: Option<Id>)
      reads this`unresolved, this`operation, this`busy, this`closed, this`last
    {
      && expected < 64 && unresolved.None? && !(operation.id == Some(op) && operation.expected != Some(expected))
      && Granted(token, current)
    }

    /** Why an apply call does not get that far; an inquiry is refused likewise. */
    ghost predicate TurnedAway(inquiry: bool, op: Id, expected: nat, token: Id, current: Option<Id>, why: Problem)
      reads this`unresolved, this`operation, this`busy, this`closed, this`last
    {
      match why
      case InvalidRevision => expected >= 64
      case InquiryRequired => !inquiry && unresolved.Some?
      case OperationIdConflict => !inquiry && operation.id == Some(op) && operation.expected != Some(expected)
      case OriginalOperationRequired =>
        inquiry && unresolved.Some? && unresolved != Some(IntentFor(op, expected))
      case _ => CommandRefused(busy, closed, last, digest, token, current, why)
    }

    /** An inquiry that gets as far as consuming its observation. */
    ghost predicate Asked(op: Id, expected: nat, token: Id, current: Option<Id>)
      reads this`unresolved, this`busy, this`closed, this`last
    {
      expected < 64 && (unresolved.None? || unresolved == Some(IntentFor(op, expected))) && Granted(token, current)
    }

    /**
     What an apply command leaves: without an application, an engine or a guard nothing was
     attempted and the reason says so; otherwise it was attempted once, and either its event
     is in the store and reported by revision, or its outcome is unknown and unresolved.
     */
    ghost predicate RequestTells(op: Id, expected: nat, w: Weather, before: seq<Call>)
      reads this`operation, this`unresolved, this`log, Footprint()
    {
      var i := IntentFor(op, expected);
      if application == null || !w.engine || !w.guardBefore then
        && log == before && unresolved.None? && operation.reason == Some(w.code) && operation.revision.None?
        && operation.state == if application == null || !w.engine || w.blockedCode then CoreBlocked else Rejected
      else
        && log == before + [Attempt(i, unresolved.None?)]
        && if unresolved.None? then
             && operation.state.ObservedRecord? && operation.reason.None? && IntentRecorded(h, application.store.durable, i)
             && operation.revision == Some(application.store.durable.events[op].record.meta.revision)
           else unresolved == Some(i) && operation.state.Unknown? && operation.reason == Some(w.code) && operation.revision.None?
    }

    /**
     What an inquiry leaves: a found row under a guard that holds is reported by its revision
     and resolves; an absent one under such a guard is reported as such; anything else is a
     failure with a reason. Only the first touches what is unresolved.
     */
    ghost predicate InquiryTells(op: Id, expected: nat, guardAfter: bool, code: Id, before: seq<Call>, was: Option<Intent>)
      reads this`operation, this`unresolved, this`log, Footprint()
    {
      var i := IntentFor(op, expected);
      match operation.state
      case ObservedRecord =>
        && application != null && guardAfter && log == before + [Inquiry(i, true)] && unresolved.None?
        && IntentRecorded(h, application.store.durable, i) && operation.reason.None?
        && operation.revision == Some(application.store.durable.events[op].record.meta.revision)
      case NotObserved =>
        && application != null && guardAfter && log == before + [Inquiry(i, false)] && unresolved == was
        && op !in application.store.durable.events && operation.reason.None? && operation.revision.None?
      case InquiryFailed =>
        && (application == null ==> log == before) && (application != null ==> exists found :: log == before + [Inquiry(i, found)])
        && unresolved == was && operation.reason == Some(code) && operation.revision.None?
      case _ => false
    }

    /** Nothing stands in the way of an observation. */
    ghost predicate Observable(s: Scene)
      reads this`closed, this`sequence
    {
      && !closed && s.first.Some? && (forall k :: 0 <= k < |s.views| ==> s.views[k].Some?)
      && s.pin.Some? && s.last == s.first && sequence < MAX_SEQUENCE && s.fits
    }

    /** A row shows its target, the inbox's view of it, and its verdict if it was given under this local revision. */
    ghost predicate Shows(row: Row, k: nat, s: Scene, given: map<Id, Id>, under: Option<Id>, local: Id)
      requires k < |targets| == |s.views|
    {
      && row.envelope == targets[k] && s.views[k] == Some(row.view)
      && (row.validation.Some? <==> under == Some(local) && targets[k] in given)
      && (row.validation.Some? ==> row.validation.value == given[targets[k]])
    }

    ghost predicate ShowsNow(row: Row, k: nat, view: Option<Id>)
      reads this`validation
      requires k < |targets|
    {
      && row.envelope == targets[k] && view == Some(row.view)
      && row.validation == if targets[k] in validation then Some(validation[targets[k]]) else None
    }

    /** The rows of an observation: each target with its inbox view and the verdict held for it. */
    method Rows(views: seq<Option<Id>>) returns (rows: Option<seq<Row>>)
      requires |views| == |targets|
      ensures rows.Some? <==> forall k :: 0 <= k < |views| ==> views[k].Some?
      ensures rows.Some? ==> |rows.value| == |targets|
      ensures rows.Some? ==> forall k :: 0 <= k < |targets| ==> ShowsNow(rows.value[k], k, views[k])
    {
      var done: seq<Row> := [];
      var k := 0;
      while k < |targets|
        invariant 0 <= k <= |targets| && |done| == k
        invariant forall j :: 0 <= j < k ==> views[j].Some? && ShowsNow(done[j], j, views[j])
      {
        if views[k].None? {
          return None;
        }
        done := done + [RowOf(targets[k], views[k], validation)];
        k := k + 1;
      }
      return Some(done);
    }

    /** `observe`: a new sequence number and, when it succeeds, a new token; nothing is applied. */
    method Observe(s: Scene) returns (r: Result<Observation, Problem>)
      requires Valid() && |s.views| == |targets|
      modifies this`busy, this`validation, this`sequence, this`last
      ensures Valid() && busy == old(busy)
      ensures sequence == old(sequence) || sequence == old(sequence) + 1
      ensures r.Err? ==> last == old(last)
      ensures r.Ok? ==>
                && !busy && !closed && last == Some(r.value) && VerdictsOk(r.value, checked)
                && r.value.sequence == sequence == old(sequence) + 1 <= MAX_SEQUENCE
                && s.first == s.last == Some(r.value.local) && r.value.operation == operation
                && |r.value.rows| == |targets| && s.pin == Some(r.value.pin)
                && (forall k :: 0 <= k < |targets| ==>
                      Shows(r.value.rows[k], k, s, old(validation), validationRevision, r.value.local))
      ensures r.Ok? <==> !old(busy) && old(Observable(s))
      ensures r.Err? ==> ObserveRefused(old(busy), closed, old(sequence), s, r.error)
    {
      hide Safe;
      hide Settled;
      hide Recorded;
      hide LedgerOk;
      if busy { return Err(Busy); }
      if closed { return Err(Closed); }
      if s.first.None? { return Err(GuardRefused); }
      busy := true;
      r := Compose(s.first.value, s);
      busy := false;
    }

    /** The guarded part of `observe`. */
    method Compose(before: Id, s: Scene) returns (r: Result<Observation, Problem>)
      requires Valid() && |s.views| == |targets| && !closed && s.first == Some(before)
      modifies this`validation, this`sequence, this`last
      ensures Valid()
      ensures sequence == old(sequence) || sequence == old(sequence) + 1
      ensures r.Err? ==> last == old(last)
      ensures r.Ok? ==>
                && last == Some(r.value) && VerdictsOk(r.value, checked)
                && r.value.sequence == sequence == old(sequence) + 1 <= MAX_SEQUENCE
                && before == r.value.local && s.last == Some(before) && r.value.operation == operation
                && |r.value.rows| == |targets| && s.pin == Some(r.value.pin)
                && (forall k :: 0 <= k < |targets| ==>
                      Shows(r.value.rows[k], k, s, old(validation), validationRevision, r.value.local))
      ensures r.Ok? <==> old(Observable(s))
      ensures r.Err? ==> ObserveRefused(false, closed, old(sequence), s, r.error)
    {
      hide Safe;
      hide Settled;
      hide Recorded;
      hide LedgerOk;
      if validationRevision != Some(before) {
        validation := map[];
      }
      var rows := Rows(s.views);
      if rows.None? { return Err(ObservationSchema); }
      if s.pin.None? || s.last.None? { return Err(GuardRefused); }
      if s.last.value != before { return Err(LocalViewChanged); }
      if sequence >= MAX_SEQUENCE { return Err(SequenceExhausted); }
      sequence := sequence + 1;
      var o := Observation(s.pin.value, sequence, before, rows.value, operation);
      if !s.fits { return Err(ObservationBudget); }
      last := Some(o);
      return Ok(o);
    }

    /** `_command`: the latest observation, still current, is consumed. */
    method TakeCommand(token: Id, current: Option<Id>) returns (r: Result<Id, Problem>)
      requires Valid()
      modifies this`last, this`used
      ensures Valid()
      ensures r.Ok? <==> old(Granted(token, current))
      ensures r.Err? ==> last == old(last) && used == old(used) && CommandRefused(busy, closed, last, digest, token, current, r.error)
      ensures r.Ok? ==>
                && !busy && !closed && old(last).Some? && digest(old(last).value) == token && current == Some(old(last).value.local)
                && r.value == old(last).value.local && last == None && used == old(used) + [old(last).value]
    {
      hide Safe;
      hide Settled;
      hide Recorded;
      hide LedgerOk;
      if busy { return Err(Busy); }
      if closed { return Err(Closed); }
      if current.None? { return Err(GuardRefused); }
      if last.None? || digest(last.value) != token { return Err(StaleObservation); }
      if current.value != last.value.local { return Err(LocalViewChanged); }
      used := used + [last.value];
      last := None;
      return Ok(current.value);
    }

    /** The loop of `validate` over the targets; `None` is an exception on the way. */
    method GatherVerdicts(verdicts: seq<Option<Id>>) returns (given: Option<map<Id, Id>>)
      requires |verdicts| == |targets| && Distinct(targets)
      ensures given.Some? <==> forall k :: 0 <= k < |verdicts| ==> verdicts[k].Some?
      ensures given.Some? ==> forall k :: 0 <= k < |targets| ==> targets[k] in given.value && verdicts[k] == Some(given.value[targets[k]])
    {
      var verified: map<Id, Id> := map[];
      var k := 0;
      while k < |targets|
        invariant 0 <= k <= |targets|
        invariant forall j :: 0 <= j < k ==> targets[j] in verified && verdicts[j] == Some(verified[targets[j]])
      {
        if verdicts[k].None? {
          return None;
        }
        verified := verified[targets[k] := verdicts[k].value];
        k := k + 1;
      }
      return Some(verified);
    }

    /** `validate`: verdicts are kept only when all were given under one local revision. */
    method Validate(token: Id, current: Option<Id>, verdicts: seq<Option<Id>>, after: Option<Id>, s: Scene)
      returns (r: Result<Observation, Problem>)
      requires Valid() && |s.views| == |verdicts| == |targets|
      modifies this
      ensures Valid() && busy == old(busy)
      ensures log == old(log) && unresolved == old(unresolved) && operation == old(operation)
      ensures used == if old(Granted(token, current)) then old(used) + [old(last).value] else old(used)
      ensures r.Ok? <==> old(Granted(token, current) && Observable(s)) && (forall k :: 0 <= k < |verdicts| ==> verdicts[k].Some?) && after == current
      ensures r.Ok? ==> last == Some(r.value)
      ensures r.Ok? && Some(r.value.local) == current ==>
                |r.value.rows| == |targets| && forall k :: 0 <= k < |targets| ==> r.value.rows[k].validation == verdicts[k]
    {
      hide Safe;
      hide Settled;
      hide Recorded;
      hide LedgerOk;
      hide Increasing;
      hide Below;
      hide VerdictsOk;
      hide CommandRefused;
      hide ObserveRefused;
      var taken := TakeCommand(token, current);
      if taken.Err? { return Err(taken.error); }
      busy := true;
      var failure := Examine(taken.value, verdicts, after);
      busy := false;
      if failure.Some? { return Err(failure.value); }
      r := Observe(s);
    }

    /** The guarded part of `validate`: the old verdicts go, and the new ones are kept if all were given under `before`. */
    method Examine(before: Id, verdicts: seq<Option<Id>>, after: Option<Id>) returns (failure: Option<Problem>)
      requires Valid() && |verdicts| == |targets| && last.None?
      modifies this`validation, this`validationRevision, this`checked
      ensures Valid()
      ensures failure.None? <==> (forall k :: 0 <= k < |verdicts| ==> verdicts[k].Some?) && after == Some(before)
      ensures failure.None? ==>
                validationRevision == Some(before) &&
                forall k :: 0 <= k < |targets| ==> targets[k] in validation && verdicts[k] == Some(validation[targets[k]])
      ensures failure.Some? ==> validation == map[] && validationRevision == None
    {
      hide Safe;
      hide Settled;
      hide Recorded;
      hide LedgerOk;
      hide Increasing;
      hide Below;
      hide VerdictsOk;
      validation, validationRevision := map[], None;
      var given := GatherVerdicts(verdicts);
      if given.None? { return Some(ValidationFailed); }
      var verified := given.value;
      if after != Some(before) { return Some(if after.None? then GuardRefused else LocalViewChanged); }
      checked := checked + set e | e in verified :: (e, verified[e], before);
      validation, validationRevision := verified, Some(before);
      failure := None;
    }

    /**
     `apply`. The application's `apply` is called only with nothing unresolved and at the
     cost of the latest observation; whatever raises after that call leaves the intent
     unresolved.
     */
    method Apply(op: Id, expected: nat, token: Id, current: Option<Id>, w: Weather, s: Scene) returns (r: Result<Observation, Problem>)
      requires Valid() && |s.views| == |targets|
      modifies this, Footprint()
      ensures Valid() && busy == old(busy)
      ensures used == if old(Commanded(op, expected, token, current)) then old(used) + [old(last).value] else old(used)
      ensures !old(Commanded(op, expected, token, current)) ==>
                && r.Err? && old(TurnedAway(false, op, expected, token, current, r.error))
                && operation == old(operation) && log == old(log) && unresolved == old(unresolved) && last == old(last)
                && (application != null ==> application.store.durable == old(application.store.durable))
      ensures old(Commanded(op, expected, token, current)) ==>
                && old(unresolved).None? && digest(old(last).value) == token && operation.id == Some(op) && operation.expected == Some(expected)
                && RequestTells(op, expected, w, old(log))
      ensures r.Ok? <==> old(Commanded(op, expected, token, current) && Observable(s)) && !(operation.reason.Some? && w.interrupted)
      ensures r.Ok? ==> last == Some(r.value) && r.value.operation == operation
    {
      hide Safe;
      hide Settled;
      hide Recorded;
      hide LedgerOk;
      hide Increasing;
      hide Below;
      hide VerdictsOk;
      hide Distinct;
      hide RequestTells;
      hide Observable;
      hide IntentFor;
      hide TurnedAway;
      hide CommandRefused;
      hide ObserveRefused;
      hide Shows;
      hide IntentRecorded;
      var failure := BeginApply(op, expected, token, current);
      if failure.Some? { return Err(failure.value); }
      busy := true;
      Requesting(op, expected, w);
      busy := false;
      if operation.reason.Some? && w.interrupted { return Err(Interrupted); }
      r := Observe(s);
    }

    /** The checks of `apply`, in order, up to consuming the observation. */
    method BeginApply(op: Id, expected: nat, token: Id, current: Option<Id>) returns (failure: Option<Problem>)
      requires Valid()
      modifies this`last, this`used
      ensures Valid()
      ensures failure.None? <==> old(Commanded(op, expected, token, current))
      ensures failure.Some? ==> old(TurnedAway(false, op, expected, token, current, failure.value)) && last == old(last) && used == old(used)
      ensures failure.None? ==> old(last).Some? && digest(old(last).value) == token && used == old(used) + [old(last).value]
    {
      hide Valid;
      if expected >= 64 { return Some(InvalidRevision); }
      if unresolved.Some? { return Some(InquiryRequired); }
      if operation.id == Some(op) && operation.expected != Some(expected) { return Some(OperationIdConflict); }
      var taken := TakeCommand(token, current);
      return if taken.Ok? then None else Some(taken.error);
    }

    /** The checks of `inquire`, in order, up to consuming the observation. */
    method BeginInquiry(op: Id, expected: nat, token: Id, current: Option<Id>) returns (failure: Option<Problem>)
      requires Valid()
      modifies this`last, this`used
      ensures Valid()
      ensures failure.None? <==> old(Asked(op, expected, token, current))
      ensures failure.Some? ==> old(TurnedAway(true, op, expected, token, current, failure.value)) && last == old(last) && used == old(used)
      ensures failure.None? ==> old(last).Some? && digest(old(last).value) == token && used == old(used) + [old(last).value]
    {
      hide Valid;
      if expected >= 64 { return Some(InvalidRevision); }
      if unresolved.Some? && unresolved != Some(IntentFor(op, expected)) { return Some(OriginalOperationRequired); }
      var taken := TakeCommand(token, current);
      return if taken.Ok? then None else Some(taken.error);
    }

    method Requesting(op: Id, expected: nat, w: Weather)
      requires Valid() && unresolved.None?
      modifies this`operation, this`unresolved, this`log, Footprint()
      ensures Valid() && operation.id == Some(op) && operation.expected == Some(expected)
      ensures RequestTells(op, expected, w, old(log))
    {
      hide Safe;
      hide Settled;
      hide Recorded;
      hide LedgerOk;
      hide Increasing;
      hide Below;
      hide VerdictsOk;
      operation := Operation(Some(op), Requested, None, None, Some(expected));
      if application == null || !w.engine {
        operation := operation.(state := CoreBlocked, reason := Some(w.code));
      } else if !w.guardBefore {
        operation := operation.(state := if w.blockedCode then CoreBlocked else Rejected, reason := Some(w.code));
      } else {
        Attempting(op, expected, w);
      }
    }

    /** The call of the application and its exception handler. */
    method Attempting(op: Id, expected: nat, w: Weather)
      requires Valid() && application != null && unresolved.None? && w.engine && w.guardBefore
      requires operation == Operation(Some(op), Requested, None, None, Some(expected))
      modifies this`operation, this`unresolved, this`log, Footprint()
      ensures Valid() && operation.id == Some(op) && operation.expected == Some(expected)
      ensures RequestTells(op, expected, w, old(log))
      ensures old(Appliable(h, application.store.durable, application.uncertain, IntentFor(op, expected), w.setting)) &&
                Admitting(w.before) && ReservesCalmly(w.before) && CommitsCalmly(w.during) && w.guardAfter ==>
              unresolved.None?
    {
      hide Safe;
      hide Settled;
      hide LedgerOk;
      hide Extends;
      var i := IntentFor(op, expected);
      ghost var before := application.store.durable;
      var reply := application.Apply(i, w.setting, w.before, w.during);
      RecordsStay(h, before, application.store.durable, log, unresolved);
      var known := reply.Found? && w.guardAfter;
      AttemptIsSafe(log, i, known);
      log := log + [Attempt(i, known)];
      if known {
        operation := operation.(state := ObservedRecord, revision := Some(reply.receipt.revision));
      } else {
        unresolved := Some(i);
        operation := operation.(state := Unknown, reason := Some(w.code));
      }
    }

    /**
     `inquire`: only the original operation may be asked about while it is unresolved, and
     only finding its row in the store resolves it.
     */
    method Inquire(op: Id, expected: nat, token: Id, current: Option<Id>, c: Circumstances, guardAfter: bool, code: Id, s: Scene)
      returns (r: Result<Observation, Problem>)
      requires Valid() && |s.views| == |targets|
      modifies this, Footprint()
      ensures Valid() && busy == old(busy)
      ensures application != null ==> application.store.durable == old(application.store.durable)
      ensures used == if old(Asked(op, expected, token, current)) then old(used) + [old(last).value] else old(used)
      ensures !old(Asked(op, expected, token, current)) ==>
                && r.Err? && old(TurnedAway(true, op, expected, token, current, r.error))
                && operation == old(operation) && log == old(log) && unresolved == old(unresolved) && last == old(last)
      ensures old(Asked(op, expected, token, current)) ==>
                && operation.id == Some(op) && operation.expected == Some(expected)
                && InquiryTells(op, expected, guardAfter, code, old(log), old(unresolved))
      ensures old(Asked(op, expected, token, current)) && application != null && !old(application.uncertain) && guardAfter ==>
                && (c.decrypts && IntentRecorded(h, application.store.durable, IntentFor(op, expected)) ==> operation.state.ObservedRecord?)
                && (op !in application.store.durable.events ==> operation.state.NotObserved?)
      ensures application != null && old(application.uncertain) ==> unresolved == old(unresolved)
      ensures r.Ok? <==> old(Asked(op, expected, token, current) && Observable(s))
      ensures r.Ok? ==> last == Some(r.value) && r.value.operation == operation
    {
      hide Safe;
      hide Settled;
      hide Recorded;
      hide LedgerOk;
      hide Increasing;
      hide Below;
      hide VerdictsOk;
      hide Distinct;
      hide InquiryTells;
      hide Observable;
      hide IntentFor;
      hide TurnedAway;
      hide CommandRefused;
      hide ObserveRefused;
      hide Shows;
      hide IntentRecorded;
      var failure := BeginInquiry(op, expected, token, current);
      if failure.Some? { return Err(failure.value); }
      busy := true;
      Questioning(op, expected, c, guardAfter, code);
      busy := false;
      r := Observe(s);
    }

    method Questioning(op: Id, expected: nat, c: Circumstances, guardAfter: bool, code: Id)
      requires Valid() && expected < 64 && (unresolved.None? || unresolved == Some(IntentFor(op, expected)))
      modifies this`operation, this`unresolved, this`log, Footprint()
      ensures Valid() && operation.id == Some(op) && operation.expected == Some(expected)
      ensures InquiryTells(op, expected, guardAfter, code, old(log), old(unresolved))
      ensures application != null ==> application.store.durable == old(application.store.durable)
      ensures application != null && !old(application.uncertain) && guardAfter ==>
                && (c.decrypts && IntentRecorded(h, application.store.durable, IntentFor(op, expected)) ==> operation.state.ObservedRecord?)
                && (op !in application.store.durable.events ==> operation.state.NotObserved?)
      ensures application != null && old(application.uncertain) ==> unresolved == old(unresolved)
    {
      hide Safe;
      hide Settled;
      hide Recorded;
      hide LedgerOk;
      hide Increasing;
      hide Below;
      hide VerdictsOk;
      hide IntentRecorded;
      operation := Operation(Some(op), InquiryFailed, None, None, Some(expected));
      if application == null {
        operation := operation.(reason := Some(code));
      } else {
        Asking(op, expected, c, guardAfter, code);
      }
    }

    method Asking(op: Id, expected: nat, c: Circumstances, guardAfter: bool, code: Id)
      requires Valid() && application != null && expected < 64 && (unresolved.None? || unresolved == Some(IntentFor(op, expected)))
      requires operation == Operation(Some(op), InquiryFailed, None, None, Some(expected))
      modifies this`operation, this`unresolved, this`log, application
      ensures Valid() && operation.id == Some(op) && operation.expected == Some(expected)
      ensures InquiryTells(op, expected, guardAfter, code, old(log), old(unresolved))
      ensures !old(application.uncertain) && guardAfter ==>
                && (c.decrypts && IntentRecorded(h, application.store.durable, IntentFor(op, expected)) ==> operation.state.ObservedRecord?)
                && (op !in application.store.durable.events ==> operation.state.NotObserved?)
      ensures old(application.uncertain) ==> unresolved == old(unresolved)
    {
      hide Safe;
      hide Settled;
      hide LedgerOk;
      hide Distinct;
      hide Increasing;
      hide Below;
      hide VerdictsOk;
      var i := IntentFor(op, expected);
      TargetsFit();
      var reply := application.Inquire(i, c);
      InquiryIsSafe(log, unresolved, i, reply.Found?);
      RecordedUnder(h, application.store.durable, log, unresolved, i);
      log := log + [Inquiry(i, reply.Found?)];
      if reply.Failed? || !guardAfter {
        operation := operation.(reason := Some(code));
      } else if reply.Found? {
        operation := operation.(state := ObservedRecord, revision := Some(reply.receipt.revision));
        unresolved := None;
      } else {
        operation := operation.(state := NotObserved);
      }
    }

    lemma {:induction false} TargetsFit()
      requires Valid()
      ensures 1 <= |Elems(targets)| <= 64
    {
      DistinctSize(targets);
    }

    method Close() returns (ok: bool)
      requires Valid()
      modifies this`closed, this`last, this`validation
      ensures Valid() && ok == !busy
      ensures ok ==> closed && last == None
      ensures !ok ==> closed == old(closed) && last == old(last)
    {
      hide Safe;
      hide Settled;
      hide Recorded;
      hide LedgerOk;
      if busy { return false; }
      closed, last, validation := true, None, map[];
      return true;
    }
  }

  /** What a refused observation says. */
  ghost predicate ObserveRefused(busy: bool, closed: bool, sequence: nat, s: Scene, why: Problem) {
    match why
    case Busy => busy
    case Closed => closed
    case GuardRefused => s.first.None? || s.pin.None? || s.last.None?
    case ObservationSchema => exists k :: 0 <= k < |s.views| && s.views[k].None?
    case LocalViewChanged => s.last != s.first
    case SequenceExhausted => sequence >= MAX_SEQUENCE
    case ObservationBudget => !s.fits
    case _ => false
  }

  /** What a refused command says. */
  ghost predicate CommandRefused(busy: bool, closed: bool, last: Option<Observation>, digest: Observation -> Id, token: Id,
                                 current: Option<Id>, why: Problem) {
    match why
    case Busy => busy
    case Closed => closed
    case GuardRefused => current.None?
    case StaleObservation => last.None? || digest(last.value) != token
    case LocalViewChanged => last.Some? && current != Some(last.value.local)
    case _ => false
  }

  function RowOf(e: Id, view: Option<Id>, validation: map<Id, Id>): Row {
    Row(e, if view.Some? then view.value else 0, if e in validation then Some(validation[e]) else None)
  }
}
