/** `run_campaign` of `harness/verification_ledger.py`, killed and repeated at will, on any ledger. */
module Campaigns {
  import opened Ordering
  import opened Resume

  /** History: a lane whose command ran, with its status, and whether its receipt was written. */
  datatype Execution = Execution(lane: Id, status: Status, recorded: bool)

  /** No lane runs again after a run that passed and was recorded. */
  ghost predicate NeverAgain(log: seq<Execution>) {
    forall j, k :: 0 <= j < k < |log| && log[j].recorded && log[j].status.Pass? ==> log[k].lane != log[j].lane
  }

  /** Every recorded pass is still on file under its lane's name, and still counts. */
  ghost predicate PassesKept(ctx: Context, c: Campaign, files: Files, log: seq<Execution>) {
    forall j :: 0 <= j < |log| && log[j].recorded && log[j].status.Pass? ==> PassKept(ctx, c, files, log[j].lane)
  }

  ghost predicate PassKept(ctx: Context, c: Campaign, files: Files, lane: Id) {
    && lane in files && files[lane].lane == lane && files[lane].status.Pass?
    && forall k :: 0 <= k < |c.lanes| && c.lanes[k].id == lane ==> Verify(ctx, c.id, c.lanes[k], files[lane]).None?
  }

  function Written(ctx: Context, c: Campaign, lane: Lane, status: Status): Receipt {
    Receipt(Intact, c.id, lane.id, lane.definition, ctx.source, ctx.environment, status)
  }

  /** A lane that is to run has no recorded pass. */
  lemma {:induction false} RunnableNotKept(ctx: Context, c: Campaign, files: Files, lane: Id)
    requires CampaignOk(c) && lane in LanesWhere(ctx, c, files, c.lanes, false)
    ensures !PassKept(ctx, c, files, lane)
  {
    LanesWhereContents(ctx, c, files, c.lanes, false, lane);
    var k :| 0 <= k < |c.lanes| && c.lanes[k].id == lane && Passed(ctx, c, files, c.lanes[k]) == false;
  }

  lemma {:induction false} OneMoreRun(ctx: Context, c: Campaign, files: Files, log: seq<Execution>, lane: Lane, status: Status)
    requires NeverAgain(log) && PassesKept(ctx, c, files, log) && CampaignOk(c) && lane in c.lanes && !status.Unlisted?
    requires !PassKept(ctx, c, files, lane.id)
    ensures NeverAgain(log + [Execution(lane.id, status, true)]) && NeverAgain(log + [Execution(lane.id, status, false)])
    ensures PassesKept(ctx, c, files, log + [Execution(lane.id, status, false)])
    ensures PassesKept(ctx, c, files[lane.id := Written(ctx, c, lane, status)], log + [Execution(lane.id, status, true)])
  {
  }

  lemma {:induction false} OtherNotKept(ctx: Context, c: Campaign, files: Files, lane: Lane, status: Status, other: Id)
    requires !PassKept(ctx, c, files, other) && other != lane.id
    ensures !PassKept(ctx, c, files[lane.id := Written(ctx, c, lane, status)], other)
  {
  }

  /** The lanes in `ran` have fresh receipts; every other file is as it was. */
  ghost predicate Progressed(ctx: Context, c: Campaign, before: Files, files: Files, ran: seq<Id>, outcome: Id -> Status) {
    && (forall f :: f in ran ==> f in files && FreshReceipt(ctx, c, f, files[f], outcome))
    && (forall f :: f !in ran ==> (f in files <==> f in before) && (f in files ==> files[f] == before[f]))
  }

  ghost predicate FreshReceipt(ctx: Context, c: Campaign, id: Id, r: Receipt, outcome: Id -> Status) {
    exists lane :: lane in c.lanes && lane.id == id && r == Written(ctx, c, lane, outcome(id))
  }

  lemma {:induction false} MoreProgress(ctx: Context, c: Campaign, before: Files, files: Files, run: seq<Id>, k: nat, lane: Lane, outcome: Id -> Status)
    requires k < |run| && lane in c.lanes && lane.id == run[k] && Progressed(ctx, c, before, files, run[..k], outcome)
    ensures Progressed(ctx, c, before, files[lane.id := Written(ctx, c, lane, outcome(lane.id))], run[..k + 1], outcome)
  {
  }

  lemma {:induction false} FreshLane(ctx: Context, c: Campaign, lane: Lane, r: Receipt, outcome: Id -> Status)
    requires CampaignOk(c) && lane in c.lanes && FreshReceipt(ctx, c, lane.id, r, outcome)
    ensures r == Written(ctx, c, lane, outcome(lane.id))
  {
  }

  lemma {:induction false} OtherKept(ctx: Context, c: Campaign, files: Files, lane: Lane, status: Status, other: Id)
    requires PassKept(ctx, c, files, other) && other != lane.id
    ensures PassKept(ctx, c, files[lane.id := Written(ctx, c, lane, status)], other)
  {
  }

  lemma {:induction false} ListedHasId(c: Campaign)
    ensures forall k :: 0 <= k < |c.lanes| ==> Listed(c, c.lanes[k].id)
  {
  }

  // ---------------------------------------------------------------- what a run to its end concludes

  /** A file that the run leaves alone holds a receipt of no lane of the campaign. */
  ghost predicate Stray(c: Campaign, before: Files, ran: seq<Id>) {
    exists g :: g in before && g !in ran && !Listed(c, before[g].lane)
  }

  /** A lane that ran has its old receipt in a file that the run leaves alone. */
  ghost predicate Doubled(before: Files, ran: seq<Id>) {
    exists g :: g in before && g !in ran && before[g].lane in ran
  }

  /** The only receipt of a reused lane stands in a file that the run overwrites. */
  ghost predicate Overwritten(before: Files, ran: seq<Id>, lane: Id) {
    lane !in ran && exists g :: g in before && g in ran && before[g].lane == lane
  }

  lemma {:induction false} RunLeavesSingles(ctx: Context, c: Campaign, before: Files, files: Files, ran: seq<Id>, outcome: Id -> Status)
    requires OneFilePerLane(before) && Progressed(ctx, c, before, files, ran, outcome)
    ensures OneFilePerLane(files) <==> !Doubled(before, ran)
    ensures AllIntact(before) ==> AllIntact(files)
  {
    assert forall f :: f in ran ==> f in files && files[f].lane == f;
    if Doubled(before, ran) {
      var g :| g in before && g !in ran && before[g].lane in ran;
      assert files[g].lane == files[before[g].lane].lane;
    }
  }

  lemma {:induction false} RunLeavesUnexpected(ctx: Context, c: Campaign, before: Files, files: Files, ran: seq<Id>, outcome: Id -> Status)
    requires Progressed(ctx, c, before, files, ran, outcome)
    ensures NoUnexpected(c, files) <==> !Stray(c, before, ran)
  {
    forall f | f in ran
      ensures f in files && Listed(c, files[f].lane)
    {
      assert FreshReceipt(ctx, c, f, files[f], outcome);
      var lane :| lane in c.lanes && lane.id == f && files[f] == Written(ctx, c, lane, outcome(f));
      var k :| 0 <= k < |c.lanes| && c.lanes[k] == lane;
    }
    hide FreshReceipt;
    if Stray(c, before, ran) {
      var g :| g in before && g !in ran && !Listed(c, before[g].lane);
      assert g in files && !Listed(c, files[g].lane);
    }
  }

  /** The receipt of one lane after the run. */
  lemma {:induction false} LaneConcludes(ctx: Context, c: Campaign, before: Files, files: Files, outcome: Id -> Status, lane: Lane)
    requires CampaignOk(c) && lane in c.lanes && !outcome(lane.id).Unlisted? && OneFilePerLane(before)
    requires Progressed(ctx, c, before, files, LanesWhere(ctx, c, before, c.lanes, false), outcome)
    requires !Doubled(before, LanesWhere(ctx, c, before, c.lanes, false))
    ensures var run := LanesWhere(ctx, c, before, c.lanes, false);
            if Overwritten(before, run, lane.id) then !HasReceipt(files, lane.id)
            else HasReceipt(files, lane.id) && Counts(ctx, c, files, lane)
                 && (Passed(ctx, c, files, lane) <==> (lane.id in run ==> outcome(lane.id).Pass?))
  {
    var run := LanesWhere(ctx, c, before, c.lanes, false);
    RunLeavesSingles(ctx, c, before, files, run, outcome);
    LanesWhereContents(ctx, c, before, c.lanes, false, lane.id);
    hide LanesWhere;
    if lane.id in run {
      FreshLane(ctx, c, lane, files[lane.id], outcome);
      OnlyReceipt(ctx, c, files, lane, lane.id);
    } else {
      assert Passed(ctx, c, before, lane);
      var g :| g in before && before[g].lane == lane.id && Verify(ctx, c.id, lane, before[g]).None? && before[g].status.Pass?;
      if g in run {
        forall f | f in files
          ensures files[f].lane != lane.id
        {
          assert f in run ==> FreshReceipt(ctx, c, f, files[f], outcome);
        }
      } else {
        OnlyReceipt(ctx, c, files, lane, g);
      }
    }
  }

  /** What `aggregate` says at the end of a run that was not killed, told from the ledger before it. */
  ghost predicate Concludes(c: Campaign, before: Files, run: seq<Id>, outcome: Id -> Status, v: Result<Verdict, Problem>) {
    if Stray(c, before, run) then v == Err(UnexpectedLane)
    else if Doubled(before, run) then v == Err(DuplicateLane)
    else
      && v.Ok?
      && (v.value.MissingLanes? <==> exists x :: Listed(c, x) && Overwritten(before, run, x))
      && (v.value.MissingLanes? ==> forall x :: x in v.value.ids <==> Listed(c, x) && Overwritten(before, run, x))
      && (v.value.AllPass? <==>
            (forall x :: x in run ==> outcome(x).Pass?) && !exists x :: Listed(c, x) && Overwritten(before, run, x))
  }

  lemma {:induction false} RunConcludes(ctx: Context, c: Campaign, before: Files, files: Files, outcome: Id -> Status)
    requires CampaignOk(c) && OneFilePerLane(before) && AllIntact(before) && forall x :: !outcome(x).Unlisted?
    requires Progressed(ctx, c, before, files, LanesWhere(ctx, c, before, c.lanes, false), outcome)
    ensures var run := LanesWhere(ctx, c, before, c.lanes, false);
            && AllIntact(files) && (NoUnexpected(c, files) <==> !Stray(c, before, run))
            && (OneFilePerLane(files) <==> !Doubled(before, run))
            && (!Doubled(before, run) ==>
                  && ReceiptsCount(ctx, c, files)
                  && (forall x :: Listed(c, x) ==> (HasReceipt(files, x) <==> !Overwritten(before, run, x)))
                  && (AllPassed(ctx, c, files) <==>
                        (forall x :: x in run ==> outcome(x).Pass?) && !exists x :: Listed(c, x) && Overwritten(before, run, x)))
  {
    hide LanesWhere;
    hide Passed;
    hide Counts;
    hide HasReceipt;
    hide Overwritten;
    hide Doubled;
    hide Stray;
    var run := LanesWhere(ctx, c, before, c.lanes, false);
    RunLeavesSingles(ctx, c, before, files, run, outcome);
    RunLeavesUnexpected(ctx, c, before, files, run, outcome);
    if !Doubled(before, run) {
      forall k | 0 <= k < |c.lanes|
        ensures HasReceipt(files, c.lanes[k].id) <==> !Overwritten(before, run, c.lanes[k].id)
        ensures HasReceipt(files, c.lanes[k].id) ==>
                  && Counts(ctx, c, files, c.lanes[k])
                  && (Passed(ctx, c, files, c.lanes[k]) <==> (c.lanes[k].id in run ==> outcome(c.lanes[k].id).Pass?))
        ensures !HasReceipt(files, c.lanes[k].id) ==> !Passed(ctx, c, files, c.lanes[k])
      {
        LaneConcludes(ctx, c, before, files, outcome, c.lanes[k]);
        PassedHasReceipt(ctx, c, files, c.lanes[k]);
      }
      forall x | x in run
        ensures Listed(c, x) && !Overwritten(before, run, x)
      {
        LanesWhereContents(ctx, c, before, c.lanes, false, x);
        RanIsNotOverwritten(before, run, x);
      }
    }
  }

  lemma {:induction false} RanIsNotOverwritten(before: Files, ran: seq<Id>, x: Id)
    requires x in ran
    ensures !Overwritten(before, ran, x)
  {
  }

  lemma {:induction false} PassedHasReceipt(ctx: Context, c: Campaign, files: Files, lane: Lane)
    ensures Passed(ctx, c, files, lane) ==> HasReceipt(files, lane.id)
  {
  }

  /**
   A ledger on which a run in which every command passes still ends without PASS: a file
   that the run leaves alone is unexpected or doubles a lane that ran, or a file that it
   overwrites holds the pass of a lane that did not run.
   */
  ghost predicate Misplaced(c: Campaign, before: Files, run: seq<Id>) {
    exists g :: g in before &&
      if g in run then before[g].lane !in run && Listed(c, before[g].lane)
      else before[g].lane in run || !Listed(c, before[g].lane)
  }

  lemma {:induction false} PassExactly(c: Campaign, before: Files, run: seq<Id>, outcome: Id -> Status, v: Result<Verdict, Problem>)
    requires Concludes(c, before, run, outcome, v)
    ensures v == Ok(AllPass) <==> (forall x :: x in run ==> outcome(x).Pass?) && !Misplaced(c, before, run)
  {
    if Misplaced(c, before, run) {
      var g :| g in before && if g in run then before[g].lane !in run && Listed(c, before[g].lane)
                              else before[g].lane in run || !Listed(c, before[g].lane);
      if g in run {
        assert Overwritten(before, run, before[g].lane);
      }
    }
    if x :| Listed(c, x) && Overwritten(before, run, x) {
      var g :| g in before && g in run && before[g].lane == x;
    }
    hide Listed;
  }

  /** Receipt files that `write_receipt` named are never misplaced, as long as their lanes are in the campaign. */
  lemma {:induction false} WellNamedIsPlaced(c: Campaign, before: Files, run: seq<Id>)
    requires (forall g :: g in before ==> before[g].lane == g) && NoUnexpected(c, before)
    ensures !Misplaced(c, before, run)
  {
  }

  /** A pass survives a run, killed or not, exactly when its file is not one that the run wrote. */
  lemma {:induction false} PassSurvives(ctx: Context, c: Campaign, before: Files, files: Files, outcome: Id -> Status, n: nat, lane: Lane, g: Id)
    requires OneFilePerLane(before) && lane in c.lanes && CampaignOk(c)
    requires g in before && before[g].lane == lane.id && Verify(ctx, c.id, lane, before[g]).None? && before[g].status.Pass?
    requires var run := LanesWhere(ctx, c, before, c.lanes, false); n <= |run| && Progressed(ctx, c, before, files, run[..n], outcome)
    ensures Passed(ctx, c, files, lane) <==> g !in LanesWhere(ctx, c, before, c.lanes, false)[..n]
    ensures lane.id !in LanesWhere(ctx, c, before, c.lanes, false)
  {
    var run := LanesWhere(ctx, c, before, c.lanes, false);
    LanesWhereContents(ctx, c, before, c.lanes, false, lane.id);
    assert Passed(ctx, c, before, lane);
    hide LanesWhere;
    if g in run[..n] {
      forall f | f in files
        ensures files[f].lane != lane.id
      {
        assert f in run[..n] ==> FreshReceipt(ctx, c, f, files[f], outcome);
      }
    } else {
      assert g in files && files[g] == before[g];
    }
  }

  lemma {:induction false} NoProgress(ctx: Context, c: Campaign, files: Files, run: seq<Id>, outcome: Id -> Status)
    ensures Progressed(ctx, c, files, files, run[..0], outcome)
  {
  }

  /** Where a process is killed: while the command of the n-th lane to run is up, or before it starts. */
  datatype Kill = Kill(at: nat, started: bool)

  class CampaignRunner {
    const ctx: Context
    const campaign: Campaign
    var files: Files
    ghost var log: seq<Execution>
    ghost var kept: set<Id>

    /** `kept` are the lanes whose pass stood under their own name at the start. */
    ghost predicate Valid()
      reads this
    {
      && CampaignOk(campaign) && NeverAgain(log) && PassesKept(ctx, campaign, files, log)
      && (forall x :: x in kept ==> PassKept(ctx, campaign, files, x))
      && forall j :: 0 <= j < |log| ==> log[j].lane !in kept
    }

    constructor (ctx: Context, campaign: Campaign, files: Files)
      requires CampaignOk(campaign)
      ensures Valid() && this.ctx == ctx && this.campaign == campaign && this.files == files && log == []
      ensures forall x :: x in kept <==> PassKept(ctx, campaign, files, x)
    {
      this.ctx, this.campaign, this.files, log := ctx, campaign, files, [];
      kept := set x | x in files && PassKept(ctx, campaign, files, x);
    }

    /**
     `run_campaign`, killed anywhere or run to its end, on any ledger. However often it is
     called, no lane runs again after a recorded pass, nor one whose pass stood under its own
     name at the start. A damaged or doubled ledger runs nothing. The verdict of a run to the
     end is told exactly from the ledger before it and the commands' outcomes.
     */
    method Run(outcome: Id -> Status, kill: Option<Kill>) returns (r: Option<Result<Verdict, Problem>>)
      requires Valid() && forall x :: !outcome(x).Unlisted?
      modifies this
      ensures Valid() && kept == old(kept) && old(log) <= log
      ensures forall j :: |old(log)| <= j < |log| ==> log[j].lane in old(LanesWhere(ctx, campaign, files, campaign.lanes, false))
      ensures !old(AllIntact(files) && OneFilePerLane(files)) ==> r.Some? && r.value.Err? && files == old(files) && log == old(log)
      ensures old(AllIntact(files) && OneFilePerLane(files)) ==>
                && (kill.None? ==> r.Some?)
                && (r.Some? ==> Concludes(campaign, old(files), old(LanesWhere(ctx, campaign, files, campaign.lanes, false)), outcome, r.value))
    {
      hide LanesWhere;
      hide PassesKept;
      hide NeverAgain;
      hide Progressed;
      hide NoUnexpected;
      hide PassKept;
      hide Stray;
      hide Doubled;
      hide Overwritten;
      var plan := ResumePlan(ctx, campaign, files);
      if plan.Err? { return Some(Err(plan.error)); }
      var killed := Execute(plan.value.run, outcome, kill);
      if killed { return None; }
      RunConcludes(ctx, campaign, old(files), files, outcome);
      var verdict := Aggregate(ctx, campaign, files);
      ListedHasId(campaign);
      return Some(verdict);
    }

    /** The loop of `run_campaign`. */
    method Execute(run: seq<Id>, outcome: Id -> Status, kill: Option<Kill>) returns (killed: bool)
      requires Valid() && run == LanesWhere(ctx, campaign, files, campaign.lanes, false) && forall x :: !outcome(x).Unlisted?
      modifies this
      ensures Valid() && old(log) <= log && (kill.None? ==> !killed)
      ensures forall j :: |old(log)| <= j < |log| ==> log[j].lane in run
      ensures kept == old(kept)
      ensures !killed ==> Progressed(ctx, campaign, old(files), files, run, outcome)
      ensures exists n :: 0 <= n <= |run| && Progressed(ctx, campaign, old(files), files, run[..n], outcome)
    {
      hide LanesWhere;
      hide PassesKept;
      hide NeverAgain;
      hide Progressed;
      hide PassKept;
      hide Passed;
      LanesWhereDistinct(ctx, campaign, files, campaign.lanes, false);
      forall x | x in run
        ensures !PassKept(ctx, campaign, files, x) && Listed(campaign, x)
      {
        RunnableNotKept(ctx, campaign, files, x);
        LanesWhereContents(ctx, campaign, files, campaign.lanes, false, x);
      }
      NoProgress(ctx, campaign, files, run, outcome);
      for k := 0 to |run|
        invariant Valid() && old(log) <= log && kept == old(kept)
        invariant forall j :: |old(log)| <= j < |log| ==> log[j].lane in run
        invariant forall i :: k <= i < |run| ==> !PassKept(ctx, campaign, files, run[i])
        invariant Progressed(ctx, campaign, old(files), files, run[..k], outcome)
      {
        var lane := LaneOf(run[k]);
        OneMoreRun(ctx, campaign, files, log, lane, outcome(lane.id));
        if kill.Some? && kill.value.at == k {
          if kill.value.started {
            log := log + [Execution(lane.id, outcome(lane.id), false)];
          }
          return true;
        }
        MoreProgress(ctx, campaign, old(files), files, run, k, lane, outcome);
        forall i | k < i < |run|
          ensures !PassKept(ctx, campaign, files[lane.id := Written(ctx, campaign, lane, outcome(lane.id))], run[i])
        {
          OtherNotKept(ctx, campaign, files, lane, outcome(lane.id), run[i]);
        }
        forall x | x in kept
          ensures PassKept(ctx, campaign, files[lane.id := Written(ctx, campaign, lane, outcome(lane.id))], x)
        {
          OtherKept(ctx, campaign, files, lane, outcome(lane.id), x);
        }
        files := files[lane.id := Written(ctx, campaign, lane, outcome(lane.id))];
        log := log + [Execution(lane.id, outcome(lane.id), true)];
      }
      assert run[..|run|] == run;
      return false;
    }

    method LaneOf(id: Id) returns (lane: Lane)
      requires Listed(campaign, id)
      ensures lane in campaign.lanes && lane.id == id
    {
      var k :| 0 <= k < |campaign.lanes| && campaign.lanes[k].id == id;
      lane := campaign.lanes[k];
    }
  }

  // ---------------------------------------------------------------- ledgers whose files are misnamed

  const HERE := Context(0, 0)
  const TWO_LANES := Campaign(0, [Lane(1, 0), Lane(2, 0)])

  function Kept(lane: Id, status: Status): Receipt {
    Receipt(Intact, 0, lane, 0, 0, 0, status)
  }

  lemma {:induction false} TwoLanesToRun(before: Files)
    ensures var a, b := Passed(HERE, TWO_LANES, before, Lane(1, 0)), Passed(HERE, TWO_LANES, before, Lane(2, 0));
            LanesWhere(HERE, TWO_LANES, before, TWO_LANES.lanes, false) == (if a then [] else [1]) + if b then [] else [2]
  {
    hide Passed;
    var lanes := TWO_LANES.lanes;
    assert lanes[..1] == [Lane(1, 0)] && lanes[..1][..0] == [];
    assert LanesWhere(HERE, TWO_LANES, before, [], false) == [];
    assert LanesWhere(HERE, TWO_LANES, before, lanes[..1], false) == if Passed(HERE, TWO_LANES, before, Lane(1, 0)) then [] else [1];
  }

  /** Lane 1 failed, and its receipt stands in file 9. */
  function OtherName(): Files {
    map[9 := Kept(1, Fail), 2 := Kept(2, Pass)]
  }

  /** Running lane 1 leaves two receipts of it: no verdict, and no further run, whatever its command did. */
  lemma {:induction false} OtherNameDoubles(outcome: Id -> Status, files: Files)
    requires Progressed(HERE, TWO_LANES, OtherName(), files, [1], outcome)
    ensures LanesWhere(HERE, TWO_LANES, OtherName(), TWO_LANES.lanes, false) == [1]
    ensures AllIntact(OtherName()) && OneFilePerLane(OtherName()) && NoUnexpected(TWO_LANES, OtherName())
    ensures Doubled(OtherName(), [1]) && !OneFilePerLane(files)
  {
    TwoLanesToRun(OtherName());
    assert Verify(HERE, 0, Lane(2, 0), OtherName()[2]).None?;
    assert TWO_LANES.lanes[0].id == 1 && TWO_LANES.lanes[1].id == 2;
    assert 9 in OtherName() && 9 !in [1];
    RunLeavesSingles(HERE, TWO_LANES, OtherName(), files, [1], outcome);
  }

  /** Lane 2 passed, and its receipt stands in the file of lane 1, which has none. */
  function TakenName(): Files {
    map[1 := Kept(2, Pass)]
  }

  /** Running lane 1 overwrites the pass of lane 2, which is then missing and runs again, whatever the commands did. */
  lemma {:induction false} TakenNameLosesPass(outcome: Id -> Status, files: Files)
    requires Progressed(HERE, TWO_LANES, TakenName(), files, [1], outcome)
    ensures LanesWhere(HERE, TWO_LANES, TakenName(), TWO_LANES.lanes, false) == [1]
    ensures AllIntact(TakenName()) && OneFilePerLane(TakenName()) && NoUnexpected(TWO_LANES, TakenName())
    ensures OneFilePerLane(files) && Overwritten(TakenName(), [1], 2) && !HasReceipt(files, 2)
    ensures 2 in LanesWhere(HERE, TWO_LANES, files, TWO_LANES.lanes, false)
  {
    TwoLanesToRun(TakenName());
    assert Verify(HERE, 0, Lane(2, 0), TakenName()[1]).None?;
    assert TWO_LANES.lanes[0].id == 1 && TWO_LANES.lanes[1].id == 2;
    assert 1 in [1] && FreshReceipt(HERE, TWO_LANES, 1, files[1], outcome);
    assert forall f :: f in files ==> f == 1;
    LanesWhereContents(HERE, TWO_LANES, files, TWO_LANES.lanes, false, 2);
  }

  /** Both lanes failed, and their receipts stand in each other's file. */
  function SwappedNames(): Files {
    map[1 := Kept(2, Fail), 2 := Kept(1, Fail)]
  }

  /** Running both overwrites both: misnamed, but not misplaced. */
  lemma {:induction false} SwappedNamesHarmless()
    ensures LanesWhere(HERE, TWO_LANES, SwappedNames(), TWO_LANES.lanes, false) == [1, 2]
    ensures !Misplaced(TWO_LANES, SwappedNames(), [1, 2])
  {
    TwoLanesToRun(SwappedNames());
  }
}
