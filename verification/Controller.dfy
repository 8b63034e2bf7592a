/**
 `FetchApplicationController` of `product/runtime_read/fetch.py`: observations that
 authorize one command each, and an unresolved intent that blocks further applications.
 */
module Controller {
  import opened Ordering
  import opened Ledger
  import opened Pins
  import opened Prepare
  import opened Applier

  const MAX_SEQUENCE := 0xffff_ffff_ffff_ffff

  datatype State = NotRequested | Requested | ObservedRecord | Unknown | CoreBlocked | Rejected | InquiryFailed | NotObserved

  datatype Operation = Operation(id: Option<Id>, state: State, reason: Option<Id>, revision: Option<nat>, expected: Option<nat>)

  /** What the inbox reports of one target, and the verdict shown beside it. */
  datatype Row = Row(envelope: Id, view: Id, validation: Option<Id>)

  datatype Observation = Observation(pin: Id, sequence: nat, local: Id, rows: seq<Row>, operation: Operation)

  datatype Problem =
    | Busy | Closed | GuardRefused | ObservationSchema | LocalViewChanged | SequenceExhausted | ObservationBudget
    | StaleObservation | InvalidRevision | InquiryRequired | OperationIdConflict | OriginalOperationRequired
    | ValidationFailed | Interrupted

  /** History: a call of the application's `apply` or `inquire`. */
  datatype Call = Attempt(intent: Intent, known: bool) | Inquiry(intent: Intent, found: bool)

  /** What the inbox, the guard and the budget answer while observing; `None` is an exception. */
  datatype Scene = Scene(first: Option<Id>, views: seq<Option<Id>>, pin: Option<Id>, last: Option<Id>, fits: bool)

  /** What the surroundings answer during an apply call, up to the final observation. */
  datatype Weather = Weather(setting: Setting, before: Circumstances, during: Circumstances, engine: bool,
                             guardBefore: bool, guardAfter: bool, blockedCode: bool, code: Id, interrupted: bool)

  // ---------------------------------------------------------------- the history of application calls

  predicate Resolves(c: Call, i: Intent) {
    c == Inquiry(i, true)
  }

  ghost predicate ResolvedBetween(log: seq<Call>, j: nat, k: nat) {
    k <= |log| && j < k && log[j].Attempt? && exists m :: j < m < k && Resolves(log[m], log[j].intent)
  }

  /** Between an attempt of unknown outcome and any later attempt, an inquiry of that intent found its row. */
  ghost predicate Safe(log: seq<Call>) {
    forall j, k :: 0 <= j < k < |log| && log[j].Attempt? && !log[j].known && log[k].Attempt? ==> ResolvedBetween(log, j, k)
  }

  /** Every attempt of unknown outcome is resolved, except those of the unresolved intent. */
  ghost predicate Settled(log: seq<Call>, unresolved: Option<Intent>) {
    forall j :: 0 <= j < |log| && log[j].Attempt? && !log[j].known && unresolved != Some(log[j].intent) ==>
      ResolvedBetween(log, j, |log|)
  }

  /** Every attempt but an unresolved one has its event in the store. */
  ghost predicate Recorded(h: Hasher, db: Db, log: seq<Call>, unresolved: Option<Intent>) {
    forall j :: 0 <= j < |log| && log[j].Attempt? && unresolved != Some(log[j].intent) ==> IntentRecorded(h, db, log[j].intent)
  }

  lemma {:induction false} ResolutionStays(log: seq<Call>, c: Call, j: nat, k: nat)
    requires ResolvedBetween(log, j, k)
    ensures ResolvedBetween(log + [c], j, k) && ResolvedBetween(log + [c], j, |log| + 1)
  {
    var more := log + [c];
    var m :| j < m < k && Resolves(log[m], log[j].intent);
    assert Resolves(more[m], more[j].intent);
  }

  /** With nothing unresolved, one more attempt is safe; if its outcome is unknown it becomes unresolved. */
  lemma {:induction false} AttemptIsSafe(log: seq<Call>, i: Intent, known: bool)
    requires Safe(log) && Settled(log, None)
    ensures Safe(log + [Attempt(i, known)])
    ensures Settled(log + [Attempt(i, known)], if known then None else Some(i))
  {
    var c := Attempt(i, known);
    var more := log + [c];
    forall j | 0 <= j < |log| && log[j].Attempt? && !log[j].known
      ensures ResolvedBetween(more, j, |log|) && ResolvedBetween(more, j, |more|)
    {
      ResolutionStays(log, c, j, |log|);
    }
    forall j, k | 0 <= j < k < |more| && more[j].Attempt? && !more[j].known && more[k].Attempt?
      ensures ResolvedBetween(more, j, k)
    {
      if k < |log| {
        ResolutionStays(log, c, j, k);
      }
    }
  }

  /** Only an inquiry of the unresolved intent that finds its row settles it. */
  lemma {:induction false} InquiryIsSafe(log: seq<Call>, unresolved: Option<Intent>, i: Intent, found: bool)
    requires Safe(log) && Settled(log, unresolved) && (unresolved.None? || unresolved == Some(i))
    ensures Safe(log + [Inquiry(i, found)]) && Settled(log + [Inquiry(i, found)], unresolved)
    ensures found ==> Settled(log + [Inquiry(i, found)], None)
  {
    var c := Inquiry(i, found);
    var more := log + [c];
    forall j, k | 0 <= j < k < |more| && more[j].Attempt? && !more[j].known && more[k].Attempt?
      ensures ResolvedBetween(more, j, k)
    {
      ResolutionStays(log, c, j, k);
    }
    forall j | 0 <= j < |log| && log[j].Attempt? && !log[j].known && (found || unresolved != Some(log[j].intent))
      ensures ResolvedBetween(more, j, |more|)
    {
      if unresolved == Some(log[j].intent) {
        assert Resolves(more[|log|], more[j].intent);
      } else {
        ResolutionStays(log, c, j, |log|);
      }
    }
  }

  lemma {:induction false} RecordsStay(h: Hasher, db: Db, db': Db, log: seq<Call>, unresolved: Option<Intent>)
    requires Recorded(h, db, log, unresolved) && Extends(db, db')
    ensures Recorded(h, db', log, unresolved)
  {
  }

  /** An inquiry adds no attempt; and once the unresolved intent is recorded, every attempt is. */
  lemma {:induction false} RecordedUnder(h: Hasher, db: Db, log: seq<Call>, unresolved: Option<Intent>, i: Intent)
    requires Recorded(h, db, log, unresolved) && (unresolved.None? || unresolved == Some(i))
    ensures forall found :: Recorded(h, db, log + [Inquiry(i, found)], unresolved)
    ensures IntentRecorded(h, db, i) ==> forall found :: Recorded(h, db, log + [Inquiry(i, found)], None)
  {
    hide IntentRecorded;
  }

  // ---------------------------------------------------------------- observation tokens

  /** Observations that authorized a command, in order. */
  ghost predicate Increasing(used: seq<Observation>) {
    forall j, k :: 0 <= j < k < |used| ==> used[j].sequence < used[k].sequence
  }

  ghost predicate Below(used: seq<Observation>, bound: nat) {
    forall j :: 0 <= j < |used| ==> used[j].sequence < bound
  }

  ghost predicate InjectiveRevision(digest: Observation -> Id) {
    forall a, b :: digest(a) == digest(b) ==> a == b
  }

  /** Under an injective digest a revision authorizes at most one command. */
  lemma {:induction false} RevisionUsedOnce(digest: Observation -> Id, used: seq<Observation>, j: nat, k: nat)
    requires InjectiveRevision(digest) && Increasing(used) && j < |used| && k < |used|
    requires digest(used[j]) == digest(used[k])
    ensures j == k
  {
  }

  /** A verdict beside a target was given under the very local revision the observation reports. */
  ghost predicate VerdictsOk(o: Observation, checked: set<(Id, Id, Id)>) {
    forall k :: 0 <= k < |o.rows| && o.rows[k].validation.Some? ==>
      (o.rows[k].envelope, o.rows[k].validation.value, o.local) in checked
  }
}
