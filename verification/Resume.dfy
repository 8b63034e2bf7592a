/** Lane receipts of `harness/verification_ledger.py`: resuming, aggregating and interrupted campaigns. */
module Resume {
  import opened Ordering

  datatype Status = Pass | Fail | Timeout | Incomplete | EnvironmentBlocked | NotRun | Unlisted

  /** Whether a receipt file parses and whether its seal matches its body. */
  datatype Integrity = Intact | Tampered | Malformed

  datatype Receipt = Receipt(integrity: Integrity, campaign: Id, lane: Id, definition: Id, source: Id, environment: Id, status: Status)

  /** A campaign lane and the digest of its definition. */
  datatype Lane = Lane(id: Id, definition: Id)
  datatype Campaign = Campaign(id: Id, lanes: seq<Lane>)
  datatype Context = Context(source: Id, environment: Id)

  /** Receipt files by name without suffix. */
  type Files = map<Id, Receipt>

  datatype Problem =
    | ReceiptTampered | ReceiptInvalid | IdMismatch | DefinitionStale | SourceStale | EnvironmentStale
    | DuplicateLane | UnexpectedLane

  /** The check that a receipt with this problem fails. */
  ghost predicate Disagrees(ctx: Context, campaign: Id, lane: Lane, r: Receipt, problem: Problem) {
    match problem
    case ReceiptInvalid => r.integrity.Malformed? || r.status.Unlisted?
    case ReceiptTampered => r.integrity.Tampered?
    case IdMismatch => r.campaign != campaign || r.lane != lane.id
    case DefinitionStale => r.definition != lane.definition
    case SourceStale => r.source != ctx.source
    case EnvironmentStale => r.environment != ctx.environment
    case _ => false
  }

  ghost predicate HasDamaged(files: Files, kind: Integrity) {
    exists f :: f in files && files[f].integrity == kind
  }

  /** `verify_receipt`: `None` when the receipt counts. */
  function Verify(ctx: Context, campaign: Id, lane: Lane, r: Receipt): (p: Option<Problem>)
    ensures p.None? <==> r == Receipt(Intact, campaign, lane.id, lane.definition, ctx.source, ctx.environment, r.status) && !r.status.Unlisted?
    ensures p.Some? ==> Disagrees(ctx, campaign, lane, r, p.value)
  {
    if r.integrity.Malformed? then Some(ReceiptInvalid)
    else if r.integrity.Tampered? then Some(ReceiptTampered)
    else if r.campaign != campaign || r.lane != lane.id then Some(IdMismatch)
    else if r.definition != lane.definition then Some(DefinitionStale)
    else if r.source != ctx.source then Some(SourceStale)
    else if r.environment != ctx.environment then Some(EnvironmentStale)
    else if r.status.Unlisted? then Some(ReceiptInvalid)
    else None
  }

  ghost predicate AllIntact(files: Files) {
    forall f :: f in files ==> files[f].integrity.Intact?
  }

  ghost predicate OneFilePerLane(files: Files) {
    forall f, g :: f in files && g in files && files[f].lane == files[g].lane ==> f == g
  }

  ghost predicate CampaignOk(c: Campaign) {
    c.lanes != [] && forall i, j :: 0 <= i < j < |c.lanes| ==> c.lanes[i].id != c.lanes[j].id
  }

  /** Some file holds a receipt of this lane with this verdict. */
  ghost predicate HasReceipt(files: Files, lane: Id) {
    exists f :: f in files && files[f].lane == lane
  }

  ghost predicate Counts(ctx: Context, c: Campaign, files: Files, lane: Lane) {
    exists f :: f in files && files[f].lane == lane.id && Verify(ctx, c.id, lane, files[f]).None?
  }

  ghost predicate Passed(ctx: Context, c: Campaign, files: Files, lane: Lane) {
    exists f :: f in files && files[f].lane == lane.id && Verify(ctx, c.id, lane, files[f]).None? && files[f].status.Pass?
  }

  ghost predicate NoUnexpected(c: Campaign, files: Files) {
    forall f :: f in files ==> exists k :: 0 <= k < |c.lanes| && c.lanes[k].id == files[f].lane
  }

  /** The lanes that are (not) passed, in campaign order. */
  ghost function LanesWhere(ctx: Context, c: Campaign, files: Files, lanes: seq<Lane>, passed: bool): seq<Id> {
    if lanes == [] then []
    else
      var x := lanes[|lanes| - 1];
      LanesWhere(ctx, c, files, lanes[..|lanes| - 1], passed) + if Passed(ctx, c, files, x) == passed then [x.id] else []
  }

  /** A ledger cannot be indexed for damaged or for doubled receipts. */
  ghost predicate DamageIsReal(files: Files, problem: Problem) {
    || (problem == ReceiptTampered && HasDamaged(files, Tampered))
    || (problem == ReceiptInvalid && HasDamaged(files, Malformed))
    || (problem == DuplicateLane && AllIntact(files) && !OneFilePerLane(files))
  }

  /** `_receipt_index`: the file of each lane, if all are intact and none is double. */
  method Index(files: Files) returns (r: Result<map<Id, Id>, Problem>)
    ensures r.Ok? <==> AllIntact(files) && OneFilePerLane(files)
    ensures r.Ok? ==> forall f :: f in files ==> files[f].lane in r.value && r.value[files[f].lane] == f
    ensures r.Ok? ==> forall x :: x in r.value ==> r.value[x] in files && files[r.value[x]].lane == x
    ensures r.Err? ==> (r.error == DuplicateLane <==> AllIntact(files))
    ensures r.Err? ==> DamageIsReal(files, r.error)
  {
    var index: map<Id, Id> := map[];
    var double := false;
    var rest := files.Keys;
    while rest != {}
      invariant rest <= files.Keys
      invariant forall f :: f in files && f !in rest ==> files[f].integrity.Intact? && files[f].lane in index
      invariant forall x :: x in index ==> index[x] in files && index[x] !in rest && files[index[x]].lane == x
      invariant double ==> !OneFilePerLane(files)
      invariant !double ==> forall f :: f in files && f !in rest ==> index[files[f].lane] == f
    {
      var f :| f in rest;
      var r := files[f];
      if !r.integrity.Intact? { return Err(if r.integrity.Tampered? then ReceiptTampered else ReceiptInvalid); }
      if r.lane in index {
        double := true;
      } else {
        index := index[r.lane := f];
      }
      rest := rest - {f};
    }
    return if double then Err(DuplicateLane) else Ok(index);
  }

  datatype Split = Split(reuse: seq<Id>, run: seq<Id>)

  /** `resume_plan`: exactly the passed lanes are reused, all others run, both in campaign order. */
  method ResumePlan(ctx: Context, c: Campaign, files: Files) returns (r: Result<Split, Problem>)
    ensures r.Ok? <==> AllIntact(files) && OneFilePerLane(files)
    ensures r.Ok? ==> r.value.reuse == LanesWhere(ctx, c, files, c.lanes, true)
    ensures r.Ok? ==> r.value.run == LanesWhere(ctx, c, files, c.lanes, false)
    ensures r.Err? ==> DamageIsReal(files, r.error)
  {
    var indexed := Index(files);
    if indexed.Err? { return Err(indexed.error); }
    var index := indexed.value;
    var reuse, run := [], [];
    for k := 0 to |c.lanes|
      invariant reuse == LanesWhere(ctx, c, files, c.lanes[..k], true)
      invariant run == LanesWhere(ctx, c, files, c.lanes[..k], false)
    {
      var lane := c.lanes[k];
      assert c.lanes[..k + 1][..k] == c.lanes[..k];
      if lane.id in index && Verify(ctx, c.id, lane, files[index[lane.id]]).None? && files[index[lane.id]].status.Pass? {
        assert Passed(ctx, c, files, lane);
        reuse := reuse + [lane.id];
      } else {
        run := run + [lane.id];
      }
    }
    assert c.lanes[..|c.lanes|] == c.lanes;
    return Ok(Split(reuse, run));
  }

  datatype Verdict = AllPass | FailOrIncomplete | MissingLanes(ids: seq<Id>)

  ghost predicate ReceiptsCount(ctx: Context, c: Campaign, files: Files) {
    forall k :: 0 <= k < |c.lanes| && HasReceipt(files, c.lanes[k].id) ==> Counts(ctx, c, files, c.lanes[k])
  }

  ghost predicate AllPassed(ctx: Context, c: Campaign, files: Files) {
    forall k :: 0 <= k < |c.lanes| ==> Passed(ctx, c, files, c.lanes[k])
  }

  predicate Listed(c: Campaign, lane: Id) {
    exists k :: 0 <= k < |c.lanes| && c.lanes[k].id == lane
  }

  method HasUnexpected(c: Campaign, files: Files) returns (found: bool)
    ensures found <==> !NoUnexpected(c, files)
  {
    var rest := files.Keys;
    while rest != {}
      invariant rest <= files.Keys
      invariant forall f :: f in files && f !in rest ==> Listed(c, files[f].lane)
    {
      var f :| f in rest;
      if !Listed(c, files[f].lane) {
        assert !(exists k :: 0 <= k < |c.lanes| && c.lanes[k].id == files[f].lane);
        return true;
      }
      rest := rest - {f};
    }
    return false;
  }

  /**
   `aggregate`: a verdict exactly when no file is damaged, double or unexpected and every
   receipt present is current; PASS exactly when moreover every lane passed.
   */
  method Aggregate(ctx: Context, c: Campaign, files: Files) returns (r: Result<Verdict, Problem>)
    ensures r.Ok? <==> AllIntact(files) && NoUnexpected(c, files) && OneFilePerLane(files) && ReceiptsCount(ctx, c, files)
    ensures r.Ok? ==> (r.value.AllPass? <==> AllPassed(ctx, c, files))
    ensures r.Ok? && r.value.MissingLanes? ==>
              r.value.ids != [] && forall x :: x in r.value.ids <==> Listed(c, x) && !HasReceipt(files, x)
    ensures r.Ok? && r.value.MissingLanes? ==> exists k :: 0 <= k < |c.lanes| && !HasReceipt(files, c.lanes[k].id)
    ensures r.Ok? && r.value.FailOrIncomplete? ==> forall k :: 0 <= k < |c.lanes| ==> HasReceipt(files, c.lanes[k].id)
    ensures r == Err(UnexpectedLane) <==> AllIntact(files) && !NoUnexpected(c, files)
    ensures r == Err(DuplicateLane) <==> AllIntact(files) && NoUnexpected(c, files) && !OneFilePerLane(files)
    ensures r.Err? && !r.error.UnexpectedLane? ==> DamageIsReal(files, r.error) || IsStale(ctx, c, files, r.error)
  {
    hide NoUnexpected;
    var indexed := Index(files);
    if indexed.Err? && indexed.error != DuplicateLane { return Err(indexed.error); }
    var extra := HasUnexpected(c, files);
    if extra { return Err(UnexpectedLane); }
    if indexed.Err? { return Err(DuplicateLane); }
    r := Statuses(ctx, c, files, indexed.value);
  }

  /** A lane of the campaign has a receipt that disagrees with it for this reason. */
  ghost predicate IsStale(ctx: Context, c: Campaign, files: Files, problem: Problem) {
    exists k, f :: 0 <= k < |c.lanes| && f in files && files[f].lane == c.lanes[k].id && Disagrees(ctx, c.id, c.lanes[k], files[f], problem)
  }

  /** The loop over the expected lanes. */
  method Statuses(ctx: Context, c: Campaign, files: Files, index: map<Id, Id>) returns (r: Result<Verdict, Problem>)
    requires OneFilePerLane(files)
    requires forall f :: f in files ==> files[f].lane in index && index[files[f].lane] == f
    requires forall x :: x in index ==> index[x] in files && files[index[x]].lane == x && files[index[x]].integrity.Intact?
    ensures r.Ok? <==> ReceiptsCount(ctx, c, files)
    ensures r.Ok? ==> (r.value.AllPass? <==> AllPassed(ctx, c, files))
    ensures r.Ok? && r.value.MissingLanes? ==>
              r.value.ids != [] && forall x :: x in r.value.ids <==> Listed(c, x) && !HasReceipt(files, x)
    ensures r.Ok? && r.value.MissingLanes? ==> exists k :: 0 <= k < |c.lanes| && !HasReceipt(files, c.lanes[k].id)
    ensures r.Ok? && r.value.FailOrIncomplete? ==> forall k :: 0 <= k < |c.lanes| ==> HasReceipt(files, c.lanes[k].id)
    ensures r.Err? ==> r.error != DuplicateLane && r.error != UnexpectedLane && IsStale(ctx, c, files, r.error)
  {
    var missing: seq<Id> := [];
    var passing := true;
    for k := 0 to |c.lanes|
      invariant forall j :: 0 <= j < k && HasReceipt(files, c.lanes[j].id) ==> Counts(ctx, c, files, c.lanes[j])
      invariant forall x :: x in missing <==> (exists j :: 0 <= j < k && c.lanes[j].id == x) && !HasReceipt(files, x)
      invariant passing <==> forall j :: 0 <= j < k && HasReceipt(files, c.lanes[j].id) ==> Passed(ctx, c, files, c.lanes[j])
    {
      var lane := c.lanes[k];
      if lane.id in index {
        var receipt := files[index[lane.id]];
        assert HasReceipt(files, lane.id);
        var problem := Verify(ctx, c.id, lane, receipt);
        if problem.Some? {
          OnlyReceipt(ctx, c, files, lane, index[lane.id]);
          return Err(problem.value);
        }
        OnlyReceipt(ctx, c, files, lane, index[lane.id]);
        passing := passing && receipt.status.Pass?;
      } else {
        assert !HasReceipt(files, lane.id);
        missing := missing + [lane.id];
      }
    }
    if missing != [] {
      assert missing[0] in missing;
      MissingIsNotPassed(ctx, c, files, missing[0]);
      return Ok(MissingLanes(missing));
    }
    assert forall j :: 0 <= j < |c.lanes| ==> HasReceipt(files, c.lanes[j].id) by {
      forall j | 0 <= j < |c.lanes|
        ensures HasReceipt(files, c.lanes[j].id)
      {
        assert c.lanes[j].id !in missing;
      }
    }
    return Ok(if passing then AllPass else FailOrIncomplete);
  }

  lemma {:induction false} OnlyReceipt(ctx: Context, c: Campaign, files: Files, lane: Lane, f: Id)
    requires OneFilePerLane(files) && f in files && files[f].lane == lane.id
    ensures Counts(ctx, c, files, lane) <==> Verify(ctx, c.id, lane, files[f]).None?
    ensures Passed(ctx, c, files, lane) <==> Verify(ctx, c.id, lane, files[f]).None? && files[f].status.Pass?
  {
  }

  lemma {:induction false} MissingIsNotPassed(ctx: Context, c: Campaign, files: Files, x: Id)
    requires Listed(c, x) && !HasReceipt(files, x)
    ensures !AllPassed(ctx, c, files)
  {
  }

  // ---------------------------------------------------------------- the two agree

  lemma {:induction false} LanesWhereContents(ctx: Context, c: Campaign, files: Files, lanes: seq<Lane>, passed: bool, x: Id)
    ensures x in LanesWhere(ctx, c, files, lanes, passed) <==>
              exists k :: 0 <= k < |lanes| && lanes[k].id == x && Passed(ctx, c, files, lanes[k]) == passed
  {
    hide Passed;
    if lanes != [] {
      var n := |lanes| - 1;
      LanesWhereContents(ctx, c, files, lanes[..n], passed, x);
      if k :| 0 <= k < |lanes| && lanes[k].id == x && Passed(ctx, c, files, lanes[k]) == passed {
        if k < n {
          assert lanes[..n][k] == lanes[k];
        }
      }
      if k :| 0 <= k < n && lanes[..n][k].id == x && Passed(ctx, c, files, lanes[..n][k]) == passed {
        assert lanes[k] == lanes[..n][k];
      }
    }
  }

  /** Reuse and run share no lane, and together they are all lanes of the campaign, each once. */
  lemma {:induction false} PlanSplitsCampaign(ctx: Context, c: Campaign, files: Files)
    requires CampaignOk(c)
    ensures var reuse, run := LanesWhere(ctx, c, files, c.lanes, true), LanesWhere(ctx, c, files, c.lanes, false);
            && Distinct(reuse) && Distinct(run) && (forall x :: x in reuse ==> x !in run)
            && (forall x :: x in reuse || x in run <==> Listed(c, x)) && |reuse| + |run| == |c.lanes|
  {
    hide Passed;
    LanesWhereDistinct(ctx, c, files, c.lanes, true);
    LanesWhereDistinct(ctx, c, files, c.lanes, false);
    LanesWhereSizes(ctx, c, files, c.lanes);
    forall x
      ensures x in LanesWhere(ctx, c, files, c.lanes, true) <==> exists k :: 0 <= k < |c.lanes| && c.lanes[k].id == x && Passed(ctx, c, files, c.lanes[k])
      ensures x in LanesWhere(ctx, c, files, c.lanes, false) <==> exists k :: 0 <= k < |c.lanes| && c.lanes[k].id == x && !Passed(ctx, c, files, c.lanes[k])
    {
      LanesWhereContents(ctx, c, files, c.lanes, true, x);
      LanesWhereContents(ctx, c, files, c.lanes, false, x);
    }
    hide LanesWhere;
  }

  lemma {:induction false} LanesWhereSizes(ctx: Context, c: Campaign, files: Files, lanes: seq<Lane>)
    ensures |LanesWhere(ctx, c, files, lanes, true)| + |LanesWhere(ctx, c, files, lanes, false)| == |lanes|
  {
    hide Passed;
    if lanes != [] {
      LanesWhereSizes(ctx, c, files, lanes[..|lanes| - 1]);
    }
  }

  lemma {:induction false} LanesWhereDistinct(ctx: Context, c: Campaign, files: Files, lanes: seq<Lane>, passed: bool)
    requires forall i, j :: 0 <= i < j < |lanes| ==> lanes[i].id != lanes[j].id
    ensures Distinct(LanesWhere(ctx, c, files, lanes, passed))
  {
    hide Passed;
    if lanes != [] {
      var n := |lanes| - 1;
      LanesWhereDistinct(ctx, c, files, lanes[..n], passed);
      LanesWhereContents(ctx, c, files, lanes[..n], passed, lanes[n].id);
    }
  }

  /** Nothing is left to run exactly when every lane passed. */
  lemma {:induction false} NothingToRun(ctx: Context, c: Campaign, files: Files)
    ensures LanesWhere(ctx, c, files, c.lanes, false) == [] <==> AllPassed(ctx, c, files)
  {
    hide Passed;
    var run := LanesWhere(ctx, c, files, c.lanes, false);
    if run != [] {
      assert run[0] in run;
      LanesWhereContents(ctx, c, files, c.lanes, false, run[0]);
    }
    forall k | 0 <= k < |c.lanes| && !Passed(ctx, c, files, c.lanes[k])
      ensures c.lanes[k].id in run
    {
      LanesWhereContents(ctx, c, files, c.lanes, false, c.lanes[k].id);
    }
  }

  lemma {:induction false} PassedCounts(ctx: Context, c: Campaign, files: Files)
    requires OneFilePerLane(files) && AllPassed(ctx, c, files)
    ensures ReceiptsCount(ctx, c, files)
  {
  }

  /**
   On an intact ledger without duplicates and unexpected lanes, `aggregate` says PASS (its
   receipts all count and every lane passed) exactly when `resume_plan` leaves nothing to run.
   */
  lemma {:induction false} PassMeansNothingToRun(ctx: Context, c: Campaign, files: Files)
    requires OneFilePerLane(files)
    ensures ReceiptsCount(ctx, c, files) && AllPassed(ctx, c, files) <==> LanesWhere(ctx, c, files, c.lanes, false) == []
  {
    NothingToRun(ctx, c, files);
    if AllPassed(ctx, c, files) {
      PassedCounts(ctx, c, files);
    }
  }
}
