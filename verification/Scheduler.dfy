/** The loops of `plan_waves`, proved to compute the reference packing. */
module Scheduler {
  import opened Ordering
  import opened Waves

  /** One planned wave as it is reported; the time estimate is left out. */
  datatype WaveRow = WaveRow(index: nat, ids: seq<Id>, load: Demand, exclusives: set<Id>)

  datatype Problem = DuplicateEntry | UnknownIds(ids: seq<Id>) | Unschedulable(id: Id)

  ghost function Exclusives(entries: Registry, ids: seq<Id>): set<Id>
    requires Known(entries, ids)
  {
    set x | x in ids && entries[x].exclusive.Some? :: entries[x].exclusive.value
  }

  /** The running totals of the loop decide feasibility. */
  lemma {:induction false} RunningTotals(entries: Registry, p: Policy, wave: seq<Id>, x: Id)
    requires Known(entries, wave) && x in entries && Feasible(entries, p, wave)
    ensures Known(entries, wave + [x])
    ensures Load(entries, wave + [x]) == Plus(Load(entries, wave), entries[x])
    ensures Feasible(entries, p, wave + [x]) <==>
              && |wave| < p.maxWorkers && Within(Plus(Load(entries, wave), entries[x]), p)
              && !(entries[x].exclusive.Some? && entries[x].exclusive.value in Exclusives(entries, wave))
  {
  }

  lemma {:induction false} MoreExclusives(entries: Registry, wave: seq<Id>, x: Id)
    requires Known(entries, wave) && x in entries
    ensures Exclusives(entries, wave + [x]) ==
              Exclusives(entries, wave) + if entries[x].exclusive.Some? then {entries[x].exclusive.value} else {}
  {
  }

  /** A full wave takes nothing more. */
  lemma {:induction false} FullWaveStops(entries: Registry, p: Policy, pending: seq<Id>, wave: seq<Id>)
    requires Known(entries, pending) && Known(entries, wave) && |wave| >= p.maxWorkers
    ensures FirstFit(entries, p, pending, wave) == Packed(wave, pending)
  {
    if pending != [] && entries[pending[0]].safe {
      FullWaveStops(entries, p, pending[1..], wave);
      assert [pending[0]] + pending[1..] == pending;
    }
  }

  // ---------------------------------------------------------------- removing the taken positions

  ghost predicate Positions(used: seq<nat>, n: nat) {
    (forall i :: 0 <= i < |used| ==> used[i] < n) && forall i, j :: 0 <= i < j < |used| ==> used[i] < used[j]
  }

  /** `for idx in reversed(used): pending.pop(idx)`. */
  ghost function Popped(s: seq<Id>, used: seq<nat>): seq<Id>
    requires Positions(used, |s|)
    decreases |used|
  {
    if used == [] then s
    else
      var k := used[|used| - 1];
      Popped(s[..k] + s[k + 1..], used[..|used| - 1])
  }

  lemma {:induction false} PoppedKeepsTail(s: seq<Id>, used: seq<nat>, tail: seq<Id>)
    requires Positions(used, |s|)
    ensures Positions(used, |s + tail|) && Popped(s + tail, used) == Popped(s, used) + tail
    decreases |used|
  {
    assert Positions(used, |s + tail|);
    if used != [] {
      var k := used[|used| - 1];
      var shorter := s[..k] + s[k + 1..];
      assert (s + tail)[..k] + (s + tail)[k + 1..] == shorter + tail;
      PoppedKeepsTail(shorter, used[..|used| - 1], tail);
    }
  }

  lemma {:induction false} PoppedLast(s: seq<Id>, used: seq<nat>, x: Id)
    requires Positions(used, |s|)
    ensures Positions(used + [|s|], |s| + 1) && Popped(s + [x], used + [|s|]) == Popped(s, used)
  {
    var more := used + [|s|];
    assert more[..|used|] == used && more[|used|] == |s|;
    assert (s + [x])[..|s|] + (s + [x])[|s| + 1..] == s;
  }

  method PopAll(pending: seq<Id>, used: seq<nat>) returns (rest: seq<Id>)
    requires Positions(used, |pending|)
    ensures rest == Popped(pending, used)
  {
    rest := pending;
    var k := |used|;
    assert used[..k] == used;
    while k > 0
      invariant 0 <= k <= |used| && Positions(used[..k], |rest|)
      invariant Popped(rest, used[..k]) == Popped(pending, used)
    {
      k := k - 1;
      assert used[..k + 1][..k] == used[..k];
      rest := rest[..used[k]] + rest[used[k] + 1..];
    }
  }

  // ---------------------------------------------------------------- the loops

  lemma {:induction false} NothingYet(entries: Registry, p: Policy, pending: seq<Id>)
    requires Known(entries, pending)
    ensures Feasible(entries, p, []) && Load(entries, []) == Demand(0, 0, 0) && Exclusives(entries, []) == {}
    ensures Popped(pending[..0], []) == [] && pending[0..] == pending
    ensures var r := FirstFit(entries, p, pending, []); Packed(r.wave, [] + r.rest) == r
  {
  }

  lemma {:induction false} FirstFitStep(entries: Registry, p: Policy, pending: seq<Id>, idx: nat, wave: seq<Id>)
    requires Known(entries, pending) && Known(entries, wave) && idx < |pending| && entries[pending[idx]].safe
    ensures var x := pending[idx];
            FirstFit(entries, p, pending[idx..], wave) ==
            if Feasible(entries, p, wave + [x]) then FirstFit(entries, p, pending[idx + 1..], wave + [x])
            else (var r := FirstFit(entries, p, pending[idx + 1..], wave); Packed(r.wave, [x] + r.rest))
  {
  }

  lemma {:induction false} PackStep(entries: Registry, p: Policy, pending: seq<Id>, idx: nat, wave: seq<Id>, skipped: seq<Id>, all: Packed)
    requires Known(entries, pending) && Known(entries, wave) && idx < |pending| && entries[pending[idx]].safe
    requires var r := FirstFit(entries, p, pending[idx..], wave); all == Packed(r.wave, skipped + r.rest)
    ensures var x := pending[idx];
            if Feasible(entries, p, wave + [x]) then
              var r := FirstFit(entries, p, pending[idx + 1..], wave + [x]); all == Packed(r.wave, skipped + r.rest)
            else
              var r := FirstFit(entries, p, pending[idx + 1..], wave); all == Packed(r.wave, (skipped + [x]) + r.rest)
  {
    FirstFitStep(entries, p, pending, idx, wave);
    hide FirstFit;
    hide Feasible;
    var rest := FirstFit(entries, p, pending[idx + 1..], wave).rest;
    assert skipped + ([pending[idx]] + rest) == (skipped + [pending[idx]]) + rest;
  }

  lemma {:induction false} FirstFitStops(entries: Registry, p: Policy, pending: seq<Id>, idx: nat, wave: seq<Id>)
    requires Known(entries, pending) && Known(entries, wave) && idx <= |pending|
    requires idx < |pending| ==> !entries[pending[idx]].safe
    ensures FirstFit(entries, p, pending[idx..], wave) == Packed(wave, pending[idx..])
  {
  }

  /** The inner loop: one wave of safe entries. The wave is never empty. */
  method PackWave(entries: Registry, p: Policy, pending: seq<Id>) returns (wave: seq<Id>, rest: seq<Id>)
    requires Schedulable(entries, p, pending) && pending != [] && entries[pending[0]].safe
    ensures Packed(wave, rest) == FirstFit(entries, p, pending, []) && wave != []
  {
    hide Feasible;
    hide Within;
    hide FirstFit;
    hide Popped;
    hide Exclusives;
    hide Load;
    SchedulableKnown(entries, p, pending);
    hide Schedulable;
    NothingYet(entries, p, pending);
    var cpu: nat, memory: nat, io: nat := 0, 0, 0;
    var exclusives: set<Id> := {};
    var used: seq<nat> := [];
    wave := [];
    var idx := 0;
    ghost var skipped: seq<Id> := [];
    while idx < |pending|
      invariant 0 <= idx <= |pending| && Known(entries, wave) && Feasible(entries, p, wave)
      invariant Demand(cpu, memory, io) == Load(entries, wave) && exclusives == Exclusives(entries, wave)
      invariant Positions(used, idx) && Popped(pending[..idx], used) == skipped
      invariant var r := FirstFit(entries, p, pending[idx..], wave);
                FirstFit(entries, p, pending, []) == Packed(r.wave, skipped + r.rest)
    {
      var x := pending[idx];
      var e := entries[x];
      RunningTotals(entries, p, wave, x);
      if !e.safe {
        FirstFitStops(entries, p, pending, idx, wave);
        break;
      }
      ghost var seen, later := pending[..idx], pending[idx + 1..];
      assert pending[..idx + 1] == seen + [x];
      PackStep(entries, p, pending, idx, wave, skipped, FirstFit(entries, p, pending, []));
      PoppedKeepsTail(seen, used, [x]);
      if e.exclusive.Some? && e.exclusive.value in exclusives {
        skipped := skipped + [x];
      } else if |wave| >= p.maxWorkers {
        FullWaveStops(entries, p, pending[idx..], wave);
        break;
      } else if !Within(Plus(Demand(cpu, memory, io), e), p) {
        skipped := skipped + [x];
      } else {
        PoppedLast(seen, used, x);
        MoreExclusives(entries, wave, x);
        wave := wave + [x];
        used := used + [idx];
        cpu, memory, io := cpu + e.cpu, memory + e.memory, io + e.io;
        if e.exclusive.Some? {
          exclusives := exclusives + {e.exclusive.value};
        }
      }
      idx := idx + 1;
    }
    if idx == |pending| {
      FirstFitStops(entries, p, pending, idx, wave);
    }
    FirstGetsIn(entries, p, pending);
    PoppedKeepsTail(pending[..idx], used, pending[idx..]);
    assert pending[..idx] + pending[idx..] == pending;
    rest := PopAll(pending, used);
  }

  /** What the report says of a wave. */
  ghost predicate Reported(entries: Registry, row: WaveRow, index: nat, ids: seq<Id>) {
    && Known(entries, ids) && row.index == index && row.ids == ids
    && row.load == Load(entries, ids) && row.exclusives == Exclusives(entries, ids)
  }

  method Summed(entries: Registry, ids: seq<Id>) returns (load: Demand, exclusives: set<Id>)
    requires Known(entries, ids)
    ensures load == Load(entries, ids) && exclusives == Exclusives(entries, ids)
  {
    load, exclusives := Demand(0, 0, 0), {};
    var k := 0;
    while k < |ids|
      invariant 0 <= k <= |ids| && load == Load(entries, ids[..k]) && exclusives == Exclusives(entries, ids[..k])
    {
      var e := entries[ids[k]];
      assert ids[..k + 1] == ids[..k] + [ids[k]];
      MoreExclusives(entries, ids[..k], ids[k]);
      load := Plus(load, e);
      if e.exclusive.Some? {
        exclusives := exclusives + {e.exclusive.value};
      }
      k := k + 1;
    }
    assert ids[..k] == ids;
  }

  /** The outer loop; the no-progress error has no place in it. */
  method MakeWaves(entries: Registry, p: Policy, ids: seq<Id>) returns (waves: seq<WaveRow>)
    requires Schedulable(entries, p, ids)
    ensures |waves| == |Plan(entries, p, ids)|
    ensures forall a :: 0 <= a < |waves| ==> Reported(entries, waves[a], a, Plan(entries, p, ids)[a])
  {
    hide Schedulable;
    hide Feasible;
    waves := [];
    var pending := ids;
    while pending != []
      invariant Schedulable(entries, p, pending) && |Plan(entries, p, ids)| == |waves| + |Plan(entries, p, pending)|
      invariant Plan(entries, p, ids)[|waves|..] == Plan(entries, p, pending)
      invariant forall a :: 0 <= a < |waves| ==> Reported(entries, waves[a], a, Plan(entries, p, ids)[a])
      decreases |pending|
    {
      PlanStep(entries, p, pending);
      FirstWave(entries, p, pending);
      SchedulableKnown(entries, p, pending);
      ghost var here := Plan(entries, p, pending);
      var wave: seq<Id>;
      if !entries[pending[0]].safe {
        wave, pending := [pending[0]], pending[1..];
      } else {
        wave, pending := PackWave(entries, p, pending);
      }
      assert wave == here[0] && Plan(entries, p, pending) == here[1..];
      var load, exclusives := Summed(entries, wave);
      waves := waves + [WaveRow(|waves|, wave, load, exclusives)];
    }
  }

  lemma {:induction false} SchedulableKnown(entries: Registry, p: Policy, ids: seq<Id>)
    requires Schedulable(entries, p, ids)
    ensures Known(entries, ids)
  {
  }

  /** An entry fits alone exactly when no single weight exceeds its capacity. */
  lemma {:induction false} AloneFits(entries: Registry, p: Policy, x: Id)
    requires x in entries && p.maxWorkers >= 1
    ensures Known(entries, [x]) && (Feasible(entries, p, [x]) <==> Within(Plus(Demand(0, 0, 0), entries[x]), p))
  {
    assert [x][..0] == [];
    assert Load(entries, [x]) == Plus(Load(entries, []), entries[x]);
  }

  /** A reported wave: non-empty, its sums are those of its entries, and each is within its limit. */
  ghost predicate WithinLimits(entries: Registry, p: Policy, row: WaveRow) {
    && row.ids != [] && Known(entries, row.ids) && Fits(entries, p, row.ids)
    && row.load.cpu == Total(entries, row.ids, (e: Entry) => e.cpu) <= p.cpu
    && row.load.memory == Total(entries, row.ids, (e: Entry) => e.memory) <= p.memory
    && row.load.io == Total(entries, row.ids, (e: Entry) => e.io) <= p.io
    && forall r :: r in row.exclusives <==> exists x :: x in row.ids && entries[x].exclusive == Some(r)
  }

  /**
   `plan_waves`: a plan exactly when the request has no duplicate, every id is registered and
   every entry fits alone; the plan is then the reference packing.
   */
  method PlanWaves(entries: Registry, p: Policy, ids: seq<Id>) returns (r: Result<seq<WaveRow>, Problem>)
    requires p.maxWorkers >= 1
    ensures r.Ok? <==> Distinct(ids) && Schedulable(entries, p, ids)
    ensures r.Ok? <==> Distinct(ids) && forall x :: x in ids ==> FitsAlone(entries, p, x)
    ensures r.Ok? ==> |r.value| == |Plan(entries, p, ids)|
    ensures r.Ok? ==> forall a :: 0 <= a < |r.value| ==> WithinLimits(entries, p, r.value[a])
    ensures r.Ok? ==> forall a :: 0 <= a < |r.value| ==> Reported(entries, r.value[a], a, Plan(entries, p, ids)[a])
    ensures r == Err(DuplicateEntry) <==> !Distinct(ids)
    ensures r.Err? && r.error.UnknownIds? ==>
              r.error.ids != [] && forall x :: x in r.error.ids <==> x in ids && x !in entries
    ensures r.Err? && r.error.Unschedulable? ==>
              Known(entries, ids) && r.error.id in ids && !FitsAlone(entries, p, r.error.id)
  {
    hide Feasible;
    SchedulableMeans(entries, p, ids);
    DistinctSize(ids);
    if |ids| != |Elems(ids)| {
      return Err(DuplicateEntry);
    }
    DistinctFromSize(ids);
    var unknown := [];
    var k := 0;
    while k < |ids|
      invariant 0 <= k <= |ids|
      invariant forall x :: x in unknown <==> x in ids[..k] && x !in entries
    {
      if ids[k] !in entries {
        unknown := unknown + [ids[k]];
      }
      assert ids[..k + 1] == ids[..k] + [ids[k]];
      k := k + 1;
    }
    assert ids[..k] == ids;
    if unknown != [] {
      assert unknown[0] in unknown;
      return Err(UnknownIds(unknown));
    }
    k := 0;
    while k < |ids|
      invariant 0 <= k <= |ids|
      invariant forall j :: 0 <= j < k ==> Feasible(entries, p, [ids[j]])
    {
      AloneFits(entries, p, ids[k]);
      if !Within(Plus(Demand(0, 0, 0), entries[ids[k]]), p) {
        return Err(Unschedulable(ids[k]));
      }
      k := k + 1;
    }
    var waves := MakeWaves(entries, p, ids);
    forall a | 0 <= a < |waves|
      ensures WithinLimits(entries, p, waves[a])
    {
      PlanFits(entries, p, ids, a);
      LoadIsTotal(entries, waves[a].ids);
    }
    return Ok(waves);
  }
}
