/** `_coverage` of `harness/evidence_promotion.py`: a release campaign covers the registry, whole entries or exact shards. */
module Coverage {
  import opened Ordering
  import opened Shards

  datatype Entry = Entry(isCase: bool, cases: seq<Id>, argv: seq<Id>, timeout: nat, tier: Id)
  datatype LaneDef = LaneDef(id: Id, argv: seq<Id>, cases: seq<Id>, timeout: nat, tier: Id)
  datatype ShardPlan = ShardPlan(parent: Id, lanes: seq<LaneDef>, count: nat, digest: Id)

  type Registry = map<Id, Entry>

  /**
   Spellings: the interpreter and its placeholder `{python}`, `-m` and `unittest`, the pseudo case of a
   campaign entry, shard lane ids, the digest of a case set and the ranking digest of a case.
   */
  datatype Names = Names(python: Id, placeholder: Id, runModule: Id, unittest: Id, campaignCase: Id -> Id,
                         shardId: (Id, nat, nat) -> Id, digest: multiset<Id> -> Id, rank: (Id, Id) -> Id)

  /** `_expected_lane`. */
  function ExpectedLane(n: Names, id: Id, e: Entry): LaneDef {
    LaneDef(id, seq(|e.argv|, i requires 0 <= i < |e.argv| => if e.argv[i] == n.placeholder then n.python else e.argv[i]),
            if e.isCase then e.cases else [n.campaignCase(id)], e.timeout, e.tier)
  }

  /** The lane runs the command of its entry by this interpreter, for the entry's cases, time and tier. */
  ghost predicate RunsEntry(n: Names, e: Entry, lane: LaneDef) {
    && |lane.argv| == |e.argv| && lane.timeout == e.timeout && lane.tier == e.tier
    && (forall i :: 0 <= i < |e.argv| && e.argv[i] != n.placeholder ==> lane.argv[i] == e.argv[i])
    && (forall i :: 0 <= i < |e.argv| && e.argv[i] == n.placeholder ==> lane.argv[i] == n.python)
    && (e.isCase ==> lane.cases == e.cases) && (!e.isCase ==> lane.cases == [n.campaignCase(lane.id)])
  }

  /** The lane runs `unittest` by this interpreter on its own cases, within the entry's time and tier. */
  ghost predicate RunsCases(n: Names, e: Entry, lane: LaneDef) {
    && |lane.argv| == 3 + |lane.cases| && lane.argv[0] == n.python && lane.argv[1] == n.runModule && lane.argv[2] == n.unittest
    && (forall i :: 0 <= i < |lane.cases| ==> lane.argv[3 + i] == lane.cases[i])
    && lane.timeout == e.timeout && lane.tier == e.tier
  }

  function CasesOf(lanes: seq<LaneDef>): seq<Id> {
    if lanes == [] then [] else CasesOf(lanes[..|lanes| - 1]) + lanes[|lanes| - 1].cases
  }

  // ---------------------------------------------------------------- shard plans

  datatype ShardResult = Plan(plan: ShardPlan) | NotCase | CountInvalid

  function ShardLane(n: Names, parent: Id, e: Entry, index: nat, count: nat, bucket: seq<Id>): LaneDef {
    LaneDef(n.shardId(parent, index, count), [n.python, n.runModule, n.unittest] + bucket, bucket, e.timeout, e.tier)
  }

  ghost function Buckets(n: Names, parent: Id, e: Entry, count: nat): seq<seq<Id>>
    requires count > 0
  {
    Dealt(Ranked((c: Id) => n.rank(parent, c), e.cases), count)
  }

  /** The plan `shard_plan` makes. */
  ghost predicate IsShardPlan(n: Names, parent: Id, e: Entry, plan: ShardPlan) {
    && e.isCase && 2 <= plan.count <= |e.cases| && plan.parent == parent && |plan.lanes| == plan.count
    && plan.digest == n.digest(multiset(e.cases))
    && forall i :: 0 <= i < plan.count ==> plan.lanes[i] == ShardLane(n, parent, e, i + 1, plan.count, Buckets(n, parent, e, plan.count)[i])
  }

  method MakeShards(n: Names, parent: Id, e: Entry, count: nat, maximum: nat) returns (r: ShardResult)
    ensures r.Plan? <==> e.isCase && 2 <= count <= maximum && count <= |e.cases|
    ensures r.Plan? ==> r.plan.count == count && IsShardPlan(n, parent, e, r.plan)
    ensures r.Plan? ==> forall i :: 0 <= i < count ==> RunsCases(n, e, r.plan.lanes[i]) && r.plan.lanes[i].id == n.shardId(parent, i + 1, count)
    ensures r.NotCase? <==> !e.isCase
  {
    if !e.isCase { return NotCase; }
    if count < 2 || count > maximum || count > |e.cases| { return CountInvalid; }
    var buckets := Deal(Ranked((c: Id) => n.rank(parent, c), e.cases), count);
    var lanes: seq<LaneDef> := [];
    for i := 0 to count
      invariant |lanes| == i
      invariant forall j :: 0 <= j < i ==> lanes[j] == ShardLane(n, parent, e, j + 1, count, buckets[j])
    {
      lanes := lanes + [ShardLane(n, parent, e, i + 1, count, buckets[i])];
    }
    return Plan(ShardPlan(parent, lanes, count, n.digest(multiset(e.cases))));
  }

  lemma {:induction false} CasesAreFlattened(lanes: seq<LaneDef>, buckets: seq<seq<Id>>)
    requires |lanes| == |buckets| && forall i :: 0 <= i < |lanes| ==> lanes[i].cases == buckets[i]
    ensures CasesOf(lanes) == Flatten(buckets)
  {
    if lanes != [] {
      var n := |lanes| - 1;
      CasesAreFlattened(lanes[..n], buckets[..n]);
    }
  }

  /** The shards partition the cases of their entry into non-empty lanes of nearly equal size. */
  lemma {:induction false} ShardsPartition(n: Names, parent: Id, e: Entry, plan: ShardPlan, a: nat, b: nat)
    requires IsShardPlan(n, parent, e, plan) && a < plan.count && b < plan.count
    ensures multiset(CasesOf(plan.lanes)) == multiset(e.cases)
    ensures 1 <= |plan.lanes[a].cases| <= |plan.lanes[b].cases| + 1
  {
    var key := (c: Id) => n.rank(parent, c);
    var ranked := Ranked(key, e.cases);
    RankedPermutes(key, e.cases);
    DealtPartitions(ranked, plan.count);
    DealtIsBalanced(ranked, plan.count, a, b);
    CasesAreFlattened(plan.lanes, Dealt(ranked, plan.count));
  }

  // ---------------------------------------------------------------- coverage

  ghost predicate LaneIdsDistinct(lanes: seq<LaneDef>) {
    forall i, j :: 0 <= i < j < |lanes| ==> lanes[i].id != lanes[j].id
  }

  ghost predicate PlanCovers(n: Names, registry: Registry, lanes: seq<LaneDef>, plan: ShardPlan) {
    && plan.parent in registry && registry[plan.parent].isCase && |plan.lanes| == plan.count >= 2
    && (forall i :: 0 <= i < |plan.lanes| ==> plan.lanes[i] in lanes)
    && Distinct(CasesOf(plan.lanes)) && multiset(CasesOf(plan.lanes)) == multiset(registry[plan.parent].cases)
    && plan.digest == n.digest(multiset(registry[plan.parent].cases))
  }

  ghost predicate IsParent(plans: seq<ShardPlan>, id: Id) {
    exists i :: 0 <= i < |plans| && plans[i].parent == id
  }

  ghost predicate IsShardId(plans: seq<ShardPlan>, id: Id) {
    exists i, j :: 0 <= i < |plans| && 0 <= j < |plans[i].lanes| && plans[i].lanes[j].id == id
  }

  ghost predicate ParentsDistinct(plans: seq<ShardPlan>) {
    forall i, j :: 0 <= i < j < |plans| ==> plans[i].parent != plans[j].parent
  }

  /** When `_coverage` accepts. */
  ghost predicate Accepts(n: Names, registry: Registry, lanes: seq<LaneDef>, plans: seq<ShardPlan>) {
    && LaneIdsDistinct(lanes) && ParentsDistinct(plans)
    && (forall i :: 0 <= i < |plans| ==> PlanCovers(n, registry, lanes, plans[i]))
    && (forall id :: id in registry && !IsParent(plans, id) ==> ExpectedLane(n, id, registry[id]) in lanes)
    && (forall k :: 0 <= k < |lanes| ==> IsShardId(plans, lanes[k].id) || (lanes[k].id in registry && !IsParent(plans, lanes[k].id)))
  }

  ghost predicate WholeLane(n: Names, registry: Registry, plans: seq<ShardPlan>, lane: LaneDef) {
    lane.id in registry && !IsParent(plans, lane.id) && lane == ExpectedLane(n, lane.id, registry[lane.id])
  }

  ghost predicate IsShard(registry: Registry, plans: seq<ShardPlan>, lane: LaneDef) {
    exists i :: 0 <= i < |plans| && lane in plans[i].lanes && plans[i].parent in registry
                && forall c :: c in lane.cases ==> c in registry[plans[i].parent].cases
  }

  lemma {:induction false} CaseIsSomewhere(lanes: seq<LaneDef>, c: Id)
    ensures c in CasesOf(lanes) <==> exists i :: 0 <= i < |lanes| && c in lanes[i].cases
  {
    if lanes != [] {
      var n := |lanes| - 1;
      CaseIsSomewhere(lanes[..n], c);
      if i :| 0 <= i < |lanes| && c in lanes[i].cases {
        if i < n {
          assert lanes[..n][i] == lanes[i];
        }
      }
      if i :| 0 <= i < n && c in lanes[..n][i].cases {
        assert lanes[i] == lanes[..n][i];
      }
    }
  }

  /** An accepted campaign runs every case of every CASE entry, and no lane is unaccounted for. */
  lemma {:induction false} AcceptedCovers(n: Names, registry: Registry, lanes: seq<LaneDef>, plans: seq<ShardPlan>, id: Id, c: Id)
    requires Accepts(n, registry, lanes, plans) && id in registry && registry[id].isCase && c in registry[id].cases
    ensures exists k :: 0 <= k < |lanes| && c in lanes[k].cases
  {
    if IsParent(plans, id) {
      var i :| 0 <= i < |plans| && plans[i].parent == id;
      assert PlanCovers(n, registry, lanes, plans[i]);
      assert c in multiset(CasesOf(plans[i].lanes));
      CaseIsSomewhere(plans[i].lanes, c);
      var j :| 0 <= j < |plans[i].lanes| && c in plans[i].lanes[j].cases;
      assert plans[i].lanes[j] in lanes;
    } else {
      assert ExpectedLane(n, id, registry[id]) in lanes;
    }
  }

  lemma {:induction false} ShardCasesBelong(n: Names, registry: Registry, lanes: seq<LaneDef>, plan: ShardPlan, j: nat)
    requires PlanCovers(n, registry, lanes, plan) && j < |plan.lanes|
    ensures plan.lanes[j] in lanes && plan.parent in registry
    ensures forall c :: c in plan.lanes[j].cases ==> c in registry[plan.parent].cases
  {
    forall c | c in plan.lanes[j].cases
      ensures c in registry[plan.parent].cases
    {
      CaseIsSomewhere(plan.lanes, c);
      assert c in multiset(CasesOf(plan.lanes));
      assert c in multiset(registry[plan.parent].cases);
    }
  }

  lemma {:induction false} AcceptedAccounts(n: Names, registry: Registry, lanes: seq<LaneDef>, plans: seq<ShardPlan>, k: nat)
    requires Accepts(n, registry, lanes, plans) && k < |lanes|
    ensures WholeLane(n, registry, plans, lanes[k]) || IsShard(registry, plans, lanes[k])
  {
    hide IsParent;
    hide CasesOf;
    hide Distinct;
    var lane := lanes[k];
    if IsShardId(plans, lane.id) {
      var i, j :| 0 <= i < |plans| && 0 <= j < |plans[i].lanes| && plans[i].lanes[j].id == lane.id;
      assert PlanCovers(n, registry, lanes, plans[i]);
      ShardCasesBelong(n, registry, lanes, plans[i], j);
      hide PlanCovers;
      SameIdSameLane(lanes, lane, plans[i].lanes[j]);
      assert IsShard(registry, plans, lane);
    } else {
      hide PlanCovers;
      hide LaneIdsDistinct;
      SameIdSameLane(lanes, lane, ExpectedLane(n, lane.id, registry[lane.id]));
    }
  }

  ghost predicate Runs(n: Names, e: Entry, lane: LaneDef, c: Id) {
    c in lane.cases && (RunsEntry(n, e, lane) || RunsCases(n, e, lane))
  }

  /** Every shard lane runs each case that it lists. */
  ghost predicate PlansRun(n: Names, registry: Registry, plans: seq<ShardPlan>) {
    forall i, j, c :: ShardAt(plans, i, j) && c in plans[i].lanes[j].cases ==>
                        plans[i].parent in registry && Runs(n, registry[plans[i].parent], plans[i].lanes[j], c)
  }

  ghost predicate IsCase(registry: Registry, id: Id, c: Id) {
    id in registry && registry[id].isCase && c in registry[id].cases
  }

  /** A lane of the campaign runs the case, by the command of the entry or by that of a shard of it. */
  ghost predicate IsRun(n: Names, registry: Registry, lanes: seq<LaneDef>, id: Id, c: Id)
    requires id in registry
  {
    exists k :: 0 <= k < |lanes| && Runs(n, registry[id], lanes[k], c)
  }

  /** No case is listed under two entries. */
  ghost predicate CasesApart(n: Names, registry: Registry) {
    forall id, id', c :: IsCase(registry, id, c) && id' in registry && c in ExpectedLane(n, id', registry[id']).cases ==> id == id'
  }

  lemma {:induction false} JoinedOnce(a: seq<Id>, b: seq<Id>, c: Id)
    requires Distinct(a + b)
    ensures Distinct(a) && !(c in a && c in b)
  {
    var all := a + b;
    forall i, j | 0 <= i < j < |a|
      ensures a[i] != a[j]
    {
      assert all[i] != all[j];
    }
    forall i, j | 0 <= i < |a| && 0 <= j < |b|
      ensures a[i] != b[j]
    {
      assert all[i] == a[i] && all[|a| + j] == b[j];
    }
  }

  lemma {:induction false} CaseOnce(lanes: seq<LaneDef>, i: nat, j: nat, c: Id)
    requires Distinct(CasesOf(lanes)) && i <= j < |lanes| && c in lanes[i].cases && c in lanes[j].cases
    ensures i == j
  {
    var m := |lanes| - 1;
    JoinedOnce(CasesOf(lanes[..m]), lanes[m].cases, c);
    CaseIsSomewhere(lanes[..m], c);
    hide Distinct;
    hide CasesOf;
    assert i < m ==> lanes[..m][i] == lanes[i];
    if j < m {
      CaseOnce(lanes[..m], i, j, c);
    }
  }

  lemma {:induction false} OneShardLists(lanes: seq<LaneDef>, a: LaneDef, b: LaneDef, c: Id)
    requires Distinct(CasesOf(lanes)) && a in lanes && b in lanes && c in a.cases && c in b.cases
    ensures a == b
  {
    hide Distinct;
    hide CasesOf;
    var i :| 0 <= i < |lanes| && lanes[i] == a;
    var j :| 0 <= j < |lanes| && lanes[j] == b;
    if i <= j {
      CaseOnce(lanes, i, j, c);
    } else {
      CaseOnce(lanes, j, i, c);
    }
  }

  /** In an accepted campaign the shard is the only lane that lists its cases. */
  lemma {:induction false} ShardListsAlone(n: Names, registry: Registry, lanes: seq<LaneDef>, plans: seq<ShardPlan>, i: nat, j: nat, k: nat, c: Id)
    requires Accepts(n, registry, lanes, plans) && CasesApart(n, registry)
    requires ShardAt(plans, i, j) && k < |lanes| && c in plans[i].lanes[j].cases && c in lanes[k].cases
    ensures plans[i].parent in registry && IsCase(registry, plans[i].parent, c) && lanes[k] == plans[i].lanes[j]
  {
    assert PlanCovers(n, registry, lanes, plans[i]);
    ShardCasesBelong(n, registry, lanes, plans[i], j);
    AcceptedAccounts(n, registry, lanes, plans, k);
    assert IsCase(registry, plans[i].parent, c);
    hide CasesOf;
    hide Distinct;
    NotWhole(n, registry, plans, i, lanes[k], c);
    hide WholeLane;
    ListedByParent(n, registry, lanes, plans, i, lanes[k], c);
    OneShardLists(plans[i].lanes, lanes[k], plans[i].lanes[j], c);
  }

  lemma {:induction false} NotWhole(n: Names, registry: Registry, plans: seq<ShardPlan>, i: nat, lane: LaneDef, c: Id)
    requires CasesApart(n, registry) && i < |plans| && IsCase(registry, plans[i].parent, c) && c in lane.cases
    ensures !WholeLane(n, registry, plans, lane)
  {
  }

  lemma {:induction false} ListedByParent(n: Names, registry: Registry, lanes: seq<LaneDef>, plans: seq<ShardPlan>, i: nat, lane: LaneDef, c: Id)
    requires Accepts(n, registry, lanes, plans) && CasesApart(n, registry) && i < |plans| && IsCase(registry, plans[i].parent, c)
    requires IsShard(registry, plans, lane) && c in lane.cases
    ensures lane in plans[i].lanes
  {
    var i' :| 0 <= i' < |plans| && lane in plans[i'].lanes && plans[i'].parent in registry
              && forall c :: c in lane.cases ==> c in registry[plans[i'].parent].cases;
    assert PlanCovers(n, registry, lanes, plans[i']);
    hide CasesOf;
    hide Distinct;
    assert c in ExpectedLane(n, plans[i'].parent, registry[plans[i'].parent]).cases;
    hide PlanCovers;
    assert plans[i'].parent == plans[i].parent;
  }

  /**
   An accepted campaign runs every case of every CASE entry, by the entry's command or by that of one
   of its shards and within the entry's time and tier, exactly when its shards run what they list.
   */
  lemma {:induction false} AcceptedRuns(n: Names, registry: Registry, lanes: seq<LaneDef>, plans: seq<ShardPlan>)
    requires Accepts(n, registry, lanes, plans) && CasesApart(n, registry)
    ensures (forall id, c :: IsCase(registry, id, c) ==> IsRun(n, registry, lanes, id, c)) <==> PlansRun(n, registry, plans)
  {
    if PlansRun(n, registry, plans) {
      forall id, c | IsCase(registry, id, c)
        ensures IsRun(n, registry, lanes, id, c)
      {
        CaseIsRun(n, registry, lanes, plans, id, c);
      }
    }
    if forall id, c :: IsCase(registry, id, c) ==> IsRun(n, registry, lanes, id, c) {
      forall i, j, c | ShardAt(plans, i, j) && c in plans[i].lanes[j].cases
        ensures plans[i].parent in registry && Runs(n, registry[plans[i].parent], plans[i].lanes[j], c)
      {
        ShardRuns(n, registry, lanes, plans, i, j, c);
      }
    }
  }

  lemma {:induction false} CaseIsRun(n: Names, registry: Registry, lanes: seq<LaneDef>, plans: seq<ShardPlan>, id: Id, c: Id)
    requires Accepts(n, registry, lanes, plans) && PlansRun(n, registry, plans) && IsCase(registry, id, c)
    ensures IsRun(n, registry, lanes, id, c)
  {
    if IsParent(plans, id) {
      var i :| 0 <= i < |plans| && plans[i].parent == id;
      assert PlanCovers(n, registry, lanes, plans[i]);
      assert c in multiset(CasesOf(plans[i].lanes));
      CaseIsSomewhere(plans[i].lanes, c);
      var j :| 0 <= j < |plans[i].lanes| && c in plans[i].lanes[j].cases;
      assert ShardAt(plans, i, j);
      assert plans[i].lanes[j] in lanes && Runs(n, registry[id], plans[i].lanes[j], c);
    } else {
      var lane := ExpectedLane(n, id, registry[id]);
      ExpectedRuns(n, id, registry[id]);
      assert lane in lanes && Runs(n, registry[id], lane, c);
    }
  }

  lemma {:induction false} ExpectedRuns(n: Names, id: Id, e: Entry)
    ensures RunsEntry(n, e, ExpectedLane(n, id, e)) && ExpectedLane(n, id, e).id == id
  {
  }

  /** A whole lane runs the command of its entry, CASE or not. */
  lemma {:induction false} WholeLaneRuns(n: Names, registry: Registry, plans: seq<ShardPlan>, lane: LaneDef)
    requires WholeLane(n, registry, plans, lane)
    ensures RunsEntry(n, registry[lane.id], lane)
  {
    ExpectedRuns(n, lane.id, registry[lane.id]);
  }

  lemma {:induction false} ShardRuns(n: Names, registry: Registry, lanes: seq<LaneDef>, plans: seq<ShardPlan>, i: nat, j: nat, c: Id)
    requires Accepts(n, registry, lanes, plans) && CasesApart(n, registry)
    requires forall id, c :: IsCase(registry, id, c) ==> IsRun(n, registry, lanes, id, c)
    requires ShardAt(plans, i, j) && c in plans[i].lanes[j].cases
    ensures plans[i].parent in registry && Runs(n, registry[plans[i].parent], plans[i].lanes[j], c)
  {
    assert PlanCovers(n, registry, lanes, plans[i]);
    assert plans[i].lanes[j] in lanes;
    var m :| 0 <= m < |lanes| && lanes[m] == plans[i].lanes[j];
    hide Accepts;
    hide CasesApart;
    hide PlanCovers;
    hide Runs;
    ShardListsAlone(n, registry, lanes, plans, i, j, m, c);
    assert IsRun(n, registry, lanes, plans[i].parent, c);
    var k :| 0 <= k < |lanes| && Runs(n, registry[plans[i].parent], lanes[k], c);
    RunsLists(n, registry[plans[i].parent], lanes[k], c);
    ShardListsAlone(n, registry, lanes, plans, i, j, k, c);
  }

  lemma {:induction false} RunsLists(n: Names, e: Entry, lane: LaneDef, c: Id)
    requires Runs(n, e, lane, c)
    ensures c in lane.cases
  {
  }

  /** The shards that `shard_plan` makes run what they list. */
  lemma {:induction false} MadePlansRun(n: Names, registry: Registry, plans: seq<ShardPlan>)
    requires ShardsRegistry(n, registry, plans)
    ensures PlansRun(n, registry, plans)
  {
    forall i, j, c | ShardAt(plans, i, j) && c in plans[i].lanes[j].cases
      ensures plans[i].parent in registry && Runs(n, registry[plans[i].parent], plans[i].lanes[j], c)
    {
      assert IsShardPlan(n, plans[i].parent, registry[plans[i].parent], plans[i]);
    }
  }

  /** The coverage check compares no command of a shard with its cases: two idle shards of one entry are accepted. */
  lemma {:induction false} IdleShardsAccepted(n: Names)
    ensures var e, plan := IdleEntry(n), IdlePlan(n);
            && Accepts(n, map[7 := e], plan.lanes, [plan]) && |plan.lanes| == 2
            && CasesApart(n, map[7 := e]) && !IsRun(n, map[7 := e], plan.lanes, 7, 1) && !IsRun(n, map[7 := e], plan.lanes, 7, 2)
  {
    var e, plan := IdleEntry(n), IdlePlan(n);
    IdlePlanCovers(n);
    hide PlanCovers;
    assert [plan][0].parent == 7 && [plan][0].lanes[0].id == 8 && [plan][0].lanes[1].id == 9;
  }

  ghost function IdleEntry(n: Names): Entry {
    Entry(true, [1, 2], [n.placeholder], 60, 0)
  }

  ghost function IdlePlan(n: Names): ShardPlan {
    ShardPlan(7, [LaneDef(8, [], [1], 60, 0), LaneDef(9, [], [2], 60, 0)], 2, n.digest(multiset(IdleEntry(n).cases)))
  }

  lemma {:induction false} IdlePlanCovers(n: Names)
    ensures PlanCovers(n, map[7 := IdleEntry(n)], IdlePlan(n).lanes, IdlePlan(n))
  {
    var lanes := IdlePlan(n).lanes;
    assert lanes[..1] == [lanes[0]] && lanes[..1][..0] == [];
    assert CasesOf(lanes[..1]) == [1];
    assert CasesOf(lanes) == [1, 2];
  }

  lemma {:induction false} SameIdSameLane(lanes: seq<LaneDef>, a: LaneDef, b: LaneDef)
    requires LaneIdsDistinct(lanes) && a in lanes && b in lanes && a.id == b.id
    ensures a == b
  {
  }

  // ---------------------------------------------------------------- sharded campaigns are accepted

  /** Shards of one id are one lane, and a shard with the id of an entry that is not sharded is that entry's lane. */
  ghost predicate ShardIdsFit(n: Names, registry: Registry, plans: seq<ShardPlan>) {
    && (forall a, b :: ShardMember(plans, a) && ShardMember(plans, b) && a.id == b.id ==> a == b)
    && (forall a :: ShardMember(plans, a) && a.id in registry && !IsParent(plans, a.id) ==> a == ExpectedLane(n, a.id, registry[a.id]))
  }

  /** The shards of these plans have different ids, none of them the id of an entry that is not sharded. */
  ghost predicate ShardIdsApart(registry: Registry, plans: seq<ShardPlan>) {
    && (forall i, j, i', j' :: ShardAt(plans, i, j) && ShardAt(plans, i', j') && plans[i].lanes[j].id == plans[i'].lanes[j'].id ==>
          i == i' && j == j')
    && (forall i, j :: ShardAt(plans, i, j) ==> plans[i].lanes[j].id !in registry || IsParent(plans, plans[i].lanes[j].id))
  }

  ghost predicate ShardAt(plans: seq<ShardPlan>, i: int, j: int) {
    0 <= i < |plans| && 0 <= j < |plans[i].lanes|
  }

  lemma {:induction false} ApartFits(n: Names, registry: Registry, plans: seq<ShardPlan>)
    requires ShardIdsApart(registry, plans)
    ensures ShardIdsFit(n, registry, plans)
  {
    forall a | ShardMember(plans, a)
      ensures exists i, j :: ShardAt(plans, i, j) && plans[i].lanes[j] == a
    {
      var i, j :| 0 <= i < |plans| && 0 <= j < |plans[i].lanes| && plans[i].lanes[j] == a;
      assert ShardAt(plans, i, j);
    }
    hide ShardMember;
  }

  ghost predicate ShardsRegistry(n: Names, registry: Registry, plans: seq<ShardPlan>) {
    && ParentsDistinct(plans)
    && forall i :: 0 <= i < |plans| ==>
         && plans[i].parent in registry && Distinct(registry[plans[i].parent].cases)
         && IsShardPlan(n, plans[i].parent, registry[plans[i].parent], plans[i])
  }

  ghost predicate ShardMember(plans: seq<ShardPlan>, lane: LaneDef) {
    exists i, j :: 0 <= i < |plans| && 0 <= j < |plans[i].lanes| && plans[i].lanes[j] == lane
  }

  /** The registry's lanes with some entries replaced by their shards, in any order. */
  ghost predicate IsCampaign(n: Names, registry: Registry, plans: seq<ShardPlan>, lanes: seq<LaneDef>) {
    && Distinct(lanes)
    && (forall id :: id in registry && !IsParent(plans, id) ==> ExpectedLane(n, id, registry[id]) in lanes)
    && (forall i, j :: 0 <= i < |plans| && 0 <= j < |plans[i].lanes| ==> plans[i].lanes[j] in lanes)
    && (forall k :: 0 <= k < |lanes| ==> WholeLane(n, registry, plans, lanes[k]) || ShardMember(plans, lanes[k]))
  }

  /** A campaign names its lanes apart exactly when the shard ids fit. */
  lemma {:induction false} CampaignIdsDistinct(n: Names, registry: Registry, plans: seq<ShardPlan>, lanes: seq<LaneDef>)
    requires IsCampaign(n, registry, plans, lanes)
    ensures LaneIdsDistinct(lanes) <==> ShardIdsFit(n, registry, plans)
  {
    if ShardIdsFit(n, registry, plans) {
      forall k, m | 0 <= k < m < |lanes|
        ensures lanes[k].id != lanes[m].id
      {
        if lanes[k].id == lanes[m].id {
          SameIdInCampaign(n, registry, plans, lanes[k], lanes[m]);
        }
      }
    }
    if LaneIdsDistinct(lanes) {
      forall a | ShardMember(plans, a)
        ensures a in lanes
      {
      }
      forall a, b | a in lanes && b in lanes && a.id == b.id
        ensures a == b
      {
        SameIdSameLane(lanes, a, b);
      }
      hide ShardMember;
      hide LaneIdsDistinct;
    }
  }

  lemma {:induction false} SameIdInCampaign(n: Names, registry: Registry, plans: seq<ShardPlan>, a: LaneDef, b: LaneDef)
    requires ShardIdsFit(n, registry, plans) && a.id == b.id
    requires WholeLane(n, registry, plans, a) || ShardMember(plans, a)
    requires WholeLane(n, registry, plans, b) || ShardMember(plans, b)
    ensures a == b
  {
  }

  lemma {:induction false} DistinctFromMultiset(a: seq<Id>, b: seq<Id>)
    requires multiset(a) == multiset(b) && Distinct(b)
    ensures Distinct(a)
  {
    DistinctSize(b);
    SameSize(a, b);
    assert Elems(a) == Elems(b) by {
      forall x
        ensures x in a <==> x in b
      {
        assert x in a <==> x in multiset(a);
        assert x in b <==> x in multiset(b);
      }
    }
    DistinctFromSize(a);
  }

  /** A campaign that replaces entries by their shards is accepted exactly when the shard ids fit. */
  lemma {:induction false} ShardedCampaignAccepted(n: Names, registry: Registry, plans: seq<ShardPlan>, lanes: seq<LaneDef>)
    requires ShardsRegistry(n, registry, plans) && IsCampaign(n, registry, plans, lanes)
    ensures Accepts(n, registry, lanes, plans) <==> ShardIdsFit(n, registry, plans)
    ensures ShardIdsApart(registry, plans) ==> Accepts(n, registry, lanes, plans)
  {
    CampaignIdsDistinct(n, registry, plans, lanes);
    if ShardIdsApart(registry, plans) {
      ApartFits(n, registry, plans);
    }
    forall i | 0 <= i < |plans|
      ensures PlanCovers(n, registry, lanes, plans[i])
    {
      var e := registry[plans[i].parent];
      ShardsPartition(n, plans[i].parent, e, plans[i], 0, 0);
      DistinctFromMultiset(CasesOf(plans[i].lanes), e.cases);
    }
    hide PlanCovers;
    hide ShardIdsFit;
    hide ShardIdsApart;
    hide IsShardPlan;
    hide LaneIdsDistinct;
    forall k | 0 <= k < |lanes|
      ensures IsShardId(plans, lanes[k].id) || (lanes[k].id in registry && !IsParent(plans, lanes[k].id))
    {
      if ShardMember(plans, lanes[k]) {
        var i, j :| 0 <= i < |plans| && 0 <= j < |plans[i].lanes| && plans[i].lanes[j] == lanes[k];
        assert plans[i].lanes[j].id == lanes[k].id;
      }
    }
  }

  /**
   The id of a shard holds only a twelve-digit token of its parent. Two parents of one token,
   cut into equally many shards, give shards of one id; the campaign is then refused, unless
   these shards are equal in everything else too.
   */
  lemma {:induction false} SharedTokenIsRefused(n: Names, registry: Registry, plans: seq<ShardPlan>, lanes: seq<LaneDef>, i: nat, i': nat, j: nat)
    requires ShardsRegistry(n, registry, plans) && IsCampaign(n, registry, plans, lanes)
    requires i < |plans| && i' < |plans| && plans[i].count == plans[i'].count && j < plans[i].count
    requires n.shardId(plans[i].parent, j + 1, plans[i].count) == n.shardId(plans[i'].parent, j + 1, plans[i].count)
    requires plans[i].lanes[j] != plans[i'].lanes[j]
    ensures !Accepts(n, registry, lanes, plans)
  {
    assert IsShardPlan(n, plans[i].parent, registry[plans[i].parent], plans[i]);
    assert IsShardPlan(n, plans[i'].parent, registry[plans[i'].parent], plans[i']);
    assert plans[i].lanes[j].id == plans[i'].lanes[j].id;
    assert ShardMember(plans, plans[i].lanes[j]) && ShardMember(plans, plans[i'].lanes[j]);
    ShardedCampaignAccepted(n, registry, plans, lanes);
    hide Accepts;
    hide ShardMember;
  }

  // ---------------------------------------------------------------- the check itself

  ghost predicate Named(lanes: seq<LaneDef>, id: Id) {
    exists k :: 0 <= k < |lanes| && lanes[k].id == id
  }

  /** An entry that is not sharded and has a lane of its id, but not its own lane. */
  ghost predicate Altered(n: Names, registry: Registry, lanes: seq<LaneDef>, plans: seq<ShardPlan>, id: Id) {
    && id in registry && !IsParent(plans, id) && Named(lanes, id) && ExpectedLane(n, id, registry[id]) !in lanes
  }

  datatype Verdict = Covered(represented: set<Id>) | DuplicateLane | ShardCoverageInvalid(parent: Id)
                   | DefinitionMismatch(id: Id) | ScopeIncomplete | ScopeUnexpected

  /** The dictionary of the lanes by id; it is as long as the list exactly when no id repeats. */
  ghost predicate Indexed(lanes: seq<LaneDef>, byId: map<Id, LaneDef>) {
    && |byId| <= |lanes| && (|byId| == |lanes| <==> LaneIdsDistinct(lanes))
    && (forall k :: 0 <= k < |lanes| ==> lanes[k].id in byId)
    && (forall id :: id in byId ==> byId[id] in lanes && byId[id].id == id)
  }

  lemma {:induction false} IndexMore(lanes: seq<LaneDef>, byId: map<Id, LaneDef>, lane: LaneDef)
    requires Indexed(lanes, byId)
    ensures Indexed(lanes + [lane], byId[lane.id := lane])
  {
    var more := byId[lane.id := lane];
    var all := lanes + [lane];
    MoreKeys(byId, lane);
    assert all[|lanes|] == lane;
    if lane.id in byId {
      var l := byId[lane.id];
      var k :| 0 <= k < |lanes| && lanes[k] == l;
      assert all[k].id == all[|lanes|].id;
    } else if LaneIdsDistinct(all) {
      forall i, j | 0 <= i < j < |lanes|
        ensures lanes[i].id != lanes[j].id
      {
        assert all[i].id != all[j].id;
      }
    }
  }

  lemma {:induction false} MoreKeys(byId: map<Id, LaneDef>, lane: LaneDef)
    ensures |byId[lane.id := lane]| == if lane.id in byId then |byId| else |byId| + 1
  {
  }

  method LanesById(lanes: seq<LaneDef>) returns (byId: map<Id, LaneDef>)
    ensures Indexed(lanes, byId)
  {
    byId := map[];
    assert Indexed(lanes[..0], byId);
    hide Indexed;
    for k := 0 to |lanes|
      invariant Indexed(lanes[..k], byId)
    {
      IndexMore(lanes[..k], byId, lanes[k]);
      assert lanes[..k + 1] == lanes[..k] + [lanes[k]];
      byId := byId[lanes[k].id := lanes[k]];
    }
    assert lanes[..|lanes|] == lanes;
  }

  lemma {:induction false} Lookup(lanes: seq<LaneDef>, byId: map<Id, LaneDef>, lane: LaneDef)
    requires LaneIdsDistinct(lanes) && Indexed(lanes, byId)
    ensures lane in lanes <==> lane.id in byId && byId[lane.id] == lane
  {
  }

  function IdsOf(lanes: seq<LaneDef>): set<Id> {
    if lanes == [] then {} else IdsOf(lanes[..|lanes| - 1]) + {lanes[|lanes| - 1].id}
  }

  lemma {:induction false} IdIsSomewhere(lanes: seq<LaneDef>, id: Id)
    ensures id in IdsOf(lanes) <==> exists i :: 0 <= i < |lanes| && lanes[i].id == id
  {
    if lanes != [] {
      var n := |lanes| - 1;
      IdIsSomewhere(lanes[..n], id);
      if i :| 0 <= i < |lanes| && lanes[i].id == id {
        if i < n {
          assert lanes[..n][i] == lanes[i];
        }
      }
      if i :| 0 <= i < n && lanes[..n][i].id == id {
        assert lanes[i] == lanes[..n][i];
      }
    }
  }

  /** One shard plan: its lanes are in the campaign, word for word, and their cases are exactly the parent's. */
  method CheckShards(n: Names, registry: Registry, lanes: seq<LaneDef>, byId: map<Id, LaneDef>, plan: ShardPlan)
    returns (ok: bool, ids: set<Id>)
    requires LaneIdsDistinct(lanes) && Indexed(lanes, byId)
    ensures ok <==> PlanCovers(n, registry, lanes, plan)
    ensures ok ==> ids == IdsOf(plan.lanes)
  {
    hide Indexed;
    hide LaneIdsDistinct;
    hide Distinct;
    ids := {};
    if plan.parent !in registry || !registry[plan.parent].isCase { return false, ids; }
    if |plan.lanes| != plan.count || plan.count < 2 { return false, ids; }
    var seen: seq<Id> := [];
    for j := 0 to |plan.lanes|
      invariant forall i :: 0 <= i < j ==> plan.lanes[i] in lanes
      invariant seen == CasesOf(plan.lanes[..j]) && ids == IdsOf(plan.lanes[..j])
    {
      var lane := plan.lanes[j];
      Lookup(lanes, byId, lane);
      if lane.id !in byId || byId[lane.id] != lane { return false, ids; }
      assert plan.lanes[..j + 1][..j] == plan.lanes[..j];
      seen := seen + lane.cases;
      ids := ids + {lane.id};
    }
    assert plan.lanes[..|plan.lanes|] == plan.lanes;
    DistinctSize(seen);
    if |seen| == |Elems(seen)| {
      DistinctFromSize(seen);
    }
    var cases := registry[plan.parent].cases;
    ok := |seen| == |Elems(seen)| && multiset(seen) == multiset(cases) && plan.digest == n.digest(multiset(cases));
  }

  lemma {:induction false} MoreShardIds(plans: seq<ShardPlan>, k: nat, id: Id)
    requires k < |plans|
    ensures IsShardId(plans[..k + 1], id) <==> IsShardId(plans[..k], id) || id in IdsOf(plans[k].lanes)
    ensures IsParent(plans[..k + 1], id) <==> IsParent(plans[..k], id) || id == plans[k].parent
  {
    var a, b := plans[..k], plans[..k + 1];
    assert forall i :: 0 <= i < k ==> a[i] == b[i];
    assert b[k] == plans[k];
    IdIsSomewhere(plans[k].lanes, id);
    if IsShardId(b, id) {
      var i, j :| 0 <= i < |b| && 0 <= j < |b[i].lanes| && b[i].lanes[j].id == id;
      if i < k {
        assert a[i].lanes[j].id == id;
      }
    }
    if IsShardId(a, id) {
      var i, j :| 0 <= i < |a| && 0 <= j < |a[i].lanes| && a[i].lanes[j].id == id;
      assert b[i].lanes[j].id == id;
    }
    if id in IdsOf(plans[k].lanes) {
      var j :| 0 <= j < |plans[k].lanes| && plans[k].lanes[j].id == id;
      assert b[k].lanes[j].id == id;
    }
    if IsParent(a, id) {
      var i :| 0 <= i < |a| && a[i].parent == id;
      assert b[i].parent == id;
    }
  }

  /** What the first loop of `_coverage` checks. */
  ghost predicate PlansCover(n: Names, registry: Registry, lanes: seq<LaneDef>, plans: seq<ShardPlan>) {
    ParentsDistinct(plans) && forall i :: 0 <= i < |plans| ==> PlanCovers(n, registry, lanes, plans[i])
  }

  lemma {:induction false} MorePlans(n: Names, registry: Registry, lanes: seq<LaneDef>, plans: seq<ShardPlan>, k: nat)
    requires k < |plans|
    ensures PlansCover(n, registry, lanes, plans[..k + 1]) <==>
              && PlansCover(n, registry, lanes, plans[..k]) && PlanCovers(n, registry, lanes, plans[k])
              && !IsParent(plans[..k], plans[k].parent)
  {
    hide PlanCovers;
    var a, b := plans[..k], plans[..k + 1];
    assert forall i :: 0 <= i < k ==> a[i] == b[i];
    assert b[k] == plans[k];
    if PlansCover(n, registry, lanes, b) {
      forall i | 0 <= i < k
        ensures a[i].parent != plans[k].parent && PlanCovers(n, registry, lanes, a[i])
      {
        assert b[i].parent != b[k].parent;
        assert PlanCovers(n, registry, lanes, b[i]);
      }
      forall i, j | 0 <= i < j < k
        ensures a[i].parent != a[j].parent
      {
        assert b[i].parent != b[j].parent;
      }
    }
    if PlansCover(n, registry, lanes, a) && PlanCovers(n, registry, lanes, plans[k]) && !IsParent(a, plans[k].parent) {
      forall i | 0 <= i < k + 1
        ensures PlanCovers(n, registry, lanes, b[i])
      {
        assert i < k ==> PlanCovers(n, registry, lanes, a[i]);
      }
      forall i, j | 0 <= i < j < k + 1
        ensures b[i].parent != b[j].parent
      {
        assert j < k ==> a[i].parent != a[j].parent;
        assert a[i].parent == b[i].parent;
      }
    }
  }

  method CheckPlans(n: Names, registry: Registry, lanes: seq<LaneDef>, byId: map<Id, LaneDef>, plans: seq<ShardPlan>)
    returns (bad: Option<Id>, parents: set<Id>, consumed: set<Id>)
    requires LaneIdsDistinct(lanes) && Indexed(lanes, byId)
    ensures bad.None? <==> PlansCover(n, registry, lanes, plans)
    ensures bad.None? ==> forall id :: id in parents <==> IsParent(plans, id)
    ensures bad.None? ==> forall id :: id in consumed <==> IsShardId(plans, id)
  {
    hide Indexed;
    hide LaneIdsDistinct;
    hide PlanCovers;
    hide PlansCover;
    hide IsParent;
    hide IsShardId;
    parents, consumed := {}, {};
    NoPlans(n, registry, lanes);
    assert plans[..0] == [];
    for k := 0 to |plans|
      invariant PlansCover(n, registry, lanes, plans[..k])
      invariant forall id :: id in parents <==> IsParent(plans[..k], id)
      invariant forall id :: id in consumed <==> IsShardId(plans[..k], id)
    {
      MorePlans(n, registry, lanes, plans, k);
      var ok, ids := CheckShards(n, registry, lanes, byId, plans[k]);
      if plans[k].parent in parents || !ok {
        NotCovered(n, registry, lanes, plans, k);
        return Some(plans[k].parent), parents, consumed;
      }
      forall id
        ensures IsShardId(plans[..k + 1], id) <==> IsShardId(plans[..k], id) || id in ids
        ensures IsParent(plans[..k + 1], id) <==> IsParent(plans[..k], id) || id == plans[k].parent
      {
        MoreShardIds(plans, k, id);
      }
      parents := parents + {plans[k].parent};
      consumed := consumed + ids;
    }
    assert plans[..|plans|] == plans;
    bad := None;
  }

  lemma {:induction false} NoPlans(n: Names, registry: Registry, lanes: seq<LaneDef>)
    ensures PlansCover(n, registry, lanes, []) && forall id :: !IsParent([], id) && !IsShardId([], id)
  {
  }

  lemma {:induction false} NotCovered(n: Names, registry: Registry, lanes: seq<LaneDef>, plans: seq<ShardPlan>, k: nat)
    requires k < |plans| && !PlansCover(n, registry, lanes, plans[..k + 1])
    ensures !PlansCover(n, registry, lanes, plans)
  {
  }

  /** The second loop: entries not sharded that have a lane of their own. */
  method CheckEntries(n: Names, registry: Registry, lanes: seq<LaneDef>, byId: map<Id, LaneDef>, parents: set<Id>)
    returns (bad: Option<Id>, whole: set<Id>)
    requires LaneIdsDistinct(lanes) && Indexed(lanes, byId)
    ensures bad.Some? ==> bad.value in registry && bad.value !in parents && ExpectedLane(n, bad.value, registry[bad.value]) !in lanes
    ensures bad.Some? ==> bad.value in byId
    ensures bad.None? ==> whole == (registry.Keys - parents) * byId.Keys
    ensures bad.None? ==> forall id :: id in whole ==> ExpectedLane(n, id, registry[id]) in lanes
  {
    hide Indexed;
    hide LaneIdsDistinct;
    whole := {};
    var rest := registry.Keys - parents;
    while rest != {}
      invariant rest <= registry.Keys - parents && whole == (registry.Keys - parents - rest) * byId.Keys
      invariant forall id :: id in whole ==> ExpectedLane(n, id, registry[id]) in lanes
    {
      var id :| id in rest;
      Lookup(lanes, byId, ExpectedLane(n, id, registry[id]));
      if id in byId {
        if byId[id] != ExpectedLane(n, id, registry[id]) { return Some(id), whole; }
        whole := whole + {id};
      }
      rest := rest - {id};
    }
    bad := None;
  }

  lemma {:induction false} CoverageDecided(n: Names, registry: Registry, lanes: seq<LaneDef>, byId: map<Id, LaneDef>, plans: seq<ShardPlan>,
                                           parents: set<Id>, shards: set<Id>, whole: set<Id>)
    requires LaneIdsDistinct(lanes) && Indexed(lanes, byId) && PlansCover(n, registry, lanes, plans)
    requires (forall id :: id in parents <==> IsParent(plans, id)) && forall id :: id in shards <==> IsShardId(plans, id)
    requires whole == (registry.Keys - parents) * byId.Keys
    requires forall id :: id in whole ==> ExpectedLane(n, id, registry[id]) in lanes
    ensures Accepts(n, registry, lanes, plans) <==> registry.Keys <= parents + whole && byId.Keys <= shards + whole
    ensures registry.Keys <= parents + whole <==> NoneUnnamed(registry, lanes, plans)
    ensures !exists id :: Altered(n, registry, lanes, plans, id)
  {
    forall id
      ensures Named(lanes, id) <==> id in byId
    {
      NamedIsKey(lanes, byId, id);
    }
    hide IsParent;
    hide IsShardId;
    hide ExpectedLane;
    hide PlansCover;
    hide LaneIdsDistinct;
  }

  lemma {:induction false} NamedIsKey(lanes: seq<LaneDef>, byId: map<Id, LaneDef>, id: Id)
    requires Indexed(lanes, byId)
    ensures Named(lanes, id) <==> id in byId
  {
  }

  /** Every entry that is not sharded has a lane of its id. */
  ghost predicate NoneUnnamed(registry: Registry, lanes: seq<LaneDef>, plans: seq<ShardPlan>) {
    forall id :: id in registry && !IsParent(plans, id) ==> Named(lanes, id)
  }

  lemma {:induction false} ParentsKnown(n: Names, registry: Registry, lanes: seq<LaneDef>, plans: seq<ShardPlan>, parents: set<Id>)
    requires PlansCover(n, registry, lanes, plans) && forall id :: id in parents <==> IsParent(plans, id)
    ensures parents <= registry.Keys
  {
  }

  /** What a rejection means for acceptance. */
  lemma {:induction false} AcceptsNeeds(n: Names, registry: Registry, lanes: seq<LaneDef>, plans: seq<ShardPlan>, byId: map<Id, LaneDef>)
    requires Indexed(lanes, byId)
    ensures |byId| == |lanes| <==> LaneIdsDistinct(lanes)
    ensures Accepts(n, registry, lanes, plans) ==> LaneIdsDistinct(lanes) && PlansCover(n, registry, lanes, plans)
    ensures Accepts(n, registry, lanes, plans) ==>
              forall id :: id in registry && !IsParent(plans, id) ==> ExpectedLane(n, id, registry[id]) in lanes
  {
  }

  function Decide(entries: set<Id>, lanes: set<Id>, parents: set<Id>, shards: set<Id>, whole: set<Id>): (r: Verdict)
    ensures r.Covered? <==> entries <= parents + whole && lanes <= shards + whole
    ensures parents <= entries && whole <= entries && r.Covered? ==> r.represented == entries
    ensures r.Covered? || r.ScopeIncomplete? || r.ScopeUnexpected?
  {
    if !(entries <= parents + whole) then ScopeIncomplete
    else if !(lanes <= shards + whole) then ScopeUnexpected
    else Covered(parents + whole)
  }

  /** `_coverage` accepts exactly the campaigns that cover the registry and nothing else. */
  method CheckCoverage(n: Names, registry: Registry, lanes: seq<LaneDef>, plans: seq<ShardPlan>) returns (r: Verdict)
    ensures r.Covered? <==> Accepts(n, registry, lanes, plans)
    ensures r.Covered? ==> r.represented == registry.Keys
    ensures r.DuplicateLane? <==> !LaneIdsDistinct(lanes)
    ensures r.ShardCoverageInvalid? <==> LaneIdsDistinct(lanes) && !PlansCover(n, registry, lanes, plans)
    ensures r.DefinitionMismatch? ==> Altered(n, registry, lanes, plans, r.id)
    ensures r.DefinitionMismatch? <==> LaneIdsDistinct(lanes) && PlansCover(n, registry, lanes, plans) && exists id :: Altered(n, registry, lanes, plans, id)
    ensures r.ScopeIncomplete? ==> !NoneUnnamed(registry, lanes, plans)
    ensures r.ScopeUnexpected? ==> NoneUnnamed(registry, lanes, plans)
  {
    hide Accepts;
    hide Indexed;
    hide LaneIdsDistinct;
    hide PlansCover;
    hide IsParent;
    hide IsShardId;
    hide ExpectedLane;
    var byId := LanesById(lanes);
    AcceptsNeeds(n, registry, lanes, plans, byId);
    if |byId| != |lanes| { return DuplicateLane; }
    var bad, parents, shards := CheckPlans(n, registry, lanes, byId, plans);
    if bad.Some? { return ShardCoverageInvalid(bad.value); }
    var mismatch, whole := CheckEntries(n, registry, lanes, byId, parents);
    if mismatch.Some? {
      NamedIsKey(lanes, byId, mismatch.value);
      return DefinitionMismatch(mismatch.value);
    }
    CoverageDecided(n, registry, lanes, byId, plans, parents, shards, whole);
    ParentsKnown(n, registry, lanes, plans, parents);
    r := Decide(registry.Keys, byId.Keys, parents, shards, whole);
  }
}
