/** `plan_waves` of `harness/resource_scheduler.py`: packing selected lanes into waves of parallel work. */
module Waves {
  import opened Ordering

  /** A registry entry; weights are positive integers there, and nothing here needs more than their sign. */
  datatype Entry = Entry(cpu: nat, memory: nat, io: nat, safe: bool, exclusive: Option<Id>)
  datatype Policy = Policy(maxWorkers: nat, cpu: nat, memory: nat, io: nat)
  datatype Demand = Demand(cpu: nat, memory: nat, io: nat)

  type Registry = map<Id, Entry>

  ghost predicate Known(entries: Registry, ids: seq<Id>) {
    forall x :: x in ids ==> x in entries
  }

  function Plus(d: Demand, e: Entry): Demand {
    Demand(d.cpu + e.cpu, d.memory + e.memory, d.io + e.io)
  }

  predicate Within(d: Demand, p: Policy) {
    d.cpu <= p.cpu && d.memory <= p.memory && d.io <= p.io
  }

  function Load(entries: Registry, ids: seq<Id>): Demand
    requires Known(entries, ids)
  {
    if ids == [] then Demand(0, 0, 0)
    else Plus(Load(entries, ids[..|ids| - 1]), entries[ids[|ids| - 1]])
  }

  ghost predicate Clash(entries: Registry, x: Id, y: Id)
    requires x in entries && y in entries
  {
    entries[x].exclusive.Some? && entries[x].exclusive == entries[y].exclusive
  }

  /** What may run together: at most `maxWorkers` entries, within every capacity, no exclusive resource shared. */
  ghost predicate Feasible(entries: Registry, p: Policy, ids: seq<Id>)
    requires Known(entries, ids)
  {
    && |ids| <= p.maxWorkers && Within(Load(entries, ids), p)
    && forall i, j :: 0 <= i < j < |ids| ==> !Clash(entries, ids[i], ids[j])
  }

  // ---------------------------------------------------------------- the reference packing

  datatype Packed = Packed(wave: seq<Id>, rest: seq<Id>)

  /** First fit, up to the first unsafe entry: what does not fit beside the wave so far waits. */
  ghost function FirstFit(entries: Registry, p: Policy, pending: seq<Id>, wave: seq<Id>): Packed
    requires Known(entries, pending) && Known(entries, wave)
  {
    if pending == [] || !entries[pending[0]].safe then Packed(wave, pending)
    else
      var x := pending[0];
      if Feasible(entries, p, wave + [x]) then FirstFit(entries, p, pending[1..], wave + [x])
      else
        var r := FirstFit(entries, p, pending[1..], wave);
        Packed(r.wave, [x] + r.rest)
  }

  /** The wave grows in place, stays feasible and takes only safe entries. */
  lemma {:induction false} FirstFitGrows(entries: Registry, p: Policy, pending: seq<Id>, wave: seq<Id>)
    requires Known(entries, pending) && Known(entries, wave)
    ensures var r := FirstFit(entries, p, pending, wave);
            && wave <= r.wave && Known(entries, r.wave) && Known(entries, r.rest)
            && (Feasible(entries, p, wave) ==> Feasible(entries, p, r.wave))
            && forall i :: |wave| <= i < |r.wave| ==> entries[r.wave[i]].safe
  {
    hide Feasible;
    if pending != [] && entries[pending[0]].safe {
      var x := pending[0];
      if Feasible(entries, p, wave + [x]) {
        FirstFitGrows(entries, p, pending[1..], wave + [x]);
        assert FirstFit(entries, p, pending[1..], wave + [x]).wave[|wave|] == x;
      } else {
        FirstFitGrows(entries, p, pending[1..], wave);
      }
    }
  }

  /** Nothing is lost and nothing doubled. */
  lemma {:induction false} FirstFitSplits(entries: Registry, p: Policy, pending: seq<Id>, wave: seq<Id>)
    requires Known(entries, pending) && Known(entries, wave)
    ensures var r := FirstFit(entries, p, pending, wave);
            && multiset(r.wave) + multiset(r.rest) == multiset(wave) + multiset(pending)
            && |r.wave| + |r.rest| == |wave| + |pending|
  {
    hide Feasible;
    if pending != [] && entries[pending[0]].safe {
      var x, later := pending[0], pending[1..];
      assert pending == [x] + later;
      assert multiset(pending) == multiset{x} + multiset(later);
      if Feasible(entries, p, wave + [x]) {
        FirstFitSplits(entries, p, later, wave + [x]);
      } else {
        FirstFitSplits(entries, p, later, wave);
        var r := FirstFit(entries, p, later, wave);
        calc {
          multiset(r.wave) + multiset([x] + r.rest);
          multiset(r.wave) + (multiset{x} + multiset(r.rest));
          multiset{x} + (multiset(r.wave) + multiset(r.rest));
          multiset{x} + (multiset(wave) + multiset(later));
          multiset(wave) + multiset(pending);
        }
      }
    }
  }

  /** The first entry always gets in, so every wave is non-empty. */
  lemma {:induction false} FirstGetsIn(entries: Registry, p: Policy, pending: seq<Id>)
    requires Known(entries, pending) && pending != [] && entries[pending[0]].safe && Feasible(entries, p, [pending[0]])
    ensures var r := FirstFit(entries, p, pending, []);
            r.wave != [] && r.wave[0] == pending[0] && |r.rest| < |pending|
  {
    assert [] + [pending[0]] == [pending[0]];
    FirstFitGrows(entries, p, pending[1..], [pending[0]]);
    FirstFitSplits(entries, p, pending, []);
  }

  ghost predicate Schedulable(entries: Registry, p: Policy, ids: seq<Id>) {
    Known(entries, ids) && p.maxWorkers >= 1 && forall x :: x in ids ==> Feasible(entries, p, [x])
  }

  lemma {:induction false} RestSchedulable(entries: Registry, p: Policy, pending: seq<Id>)
    requires Schedulable(entries, p, pending) && pending != []
    ensures Schedulable(entries, p, pending[1..])
    ensures entries[pending[0]].safe ==>
              var r := FirstFit(entries, p, pending, []); Schedulable(entries, p, r.rest) && |r.rest| < |pending|
  {
    FirstFitGrows(entries, p, pending, []);
    FirstFitSplits(entries, p, pending, []);
    if entries[pending[0]].safe {
      FirstGetsIn(entries, p, pending);
      var r := FirstFit(entries, p, pending, []);
      forall x | x in r.rest
        ensures x in pending
      {
        assert x in multiset(r.rest);
        assert x in multiset(r.wave) + multiset(r.rest);
      }
    }
  }

  /** An unsafe entry runs alone; otherwise a first-fit wave, then the rest. */
  ghost function Plan(entries: Registry, p: Policy, pending: seq<Id>): seq<seq<Id>>
    requires Schedulable(entries, p, pending)
    decreases |pending|
  {
    if pending == [] then []
    else
      RestSchedulable(entries, p, pending);
      if !entries[pending[0]].safe then [[pending[0]]] + Plan(entries, p, pending[1..])
      else
        var r := FirstFit(entries, p, pending, []);
        [r.wave] + Plan(entries, p, r.rest)
  }

  // ---------------------------------------------------------------- a partition into feasible waves

  ghost predicate AloneOrSafe(entries: Registry, wave: seq<Id>)
    requires Known(entries, wave)
  {
    |wave| == 1 || forall x :: x in wave ==> entries[x].safe
  }

  ghost predicate WaveOk(entries: Registry, p: Policy, wave: seq<Id>) {
    wave != [] && Known(entries, wave) && Feasible(entries, p, wave) && AloneOrSafe(entries, wave)
  }

  /** What the first wave leaves. */
  ghost function Later(entries: Registry, p: Policy, pending: seq<Id>): seq<Id>
    requires Schedulable(entries, p, pending) && pending != []
  {
    if !entries[pending[0]].safe then pending[1..] else FirstFit(entries, p, pending, []).rest
  }

  lemma {:induction false} PlanStep(entries: Registry, p: Policy, pending: seq<Id>)
    requires Schedulable(entries, p, pending) && pending != []
    ensures var later, waves := Later(entries, p, pending), Plan(entries, p, pending);
            && Schedulable(entries, p, later) && |later| < |pending| && waves != []
            && waves[1..] == Plan(entries, p, later) && WaveOk(entries, p, waves[0])
            && multiset(waves[0]) + multiset(later) == multiset(pending)
  {
    hide Feasible;
    RestSchedulable(entries, p, pending);
    var x := pending[0];
    assert pending == [x] + pending[1..];
    if entries[x].safe {
      NothingIsFeasible(entries, p);
      FirstFitGrows(entries, p, pending, []);
      FirstFitSplits(entries, p, pending, []);
      FirstGetsIn(entries, p, pending);
      assert multiset([]) + multiset(pending) == multiset(pending);
    }
  }

  /** Each entry runs in exactly one wave; each wave is non-empty and feasible, and an unsafe entry is alone in its wave. */
  lemma {:induction false} PlanPartitions(entries: Registry, p: Policy, pending: seq<Id>)
    requires Schedulable(entries, p, pending)
    ensures var waves := Plan(entries, p, pending);
            && multiset(Flatten(waves)) == multiset(pending)
            && forall a :: 0 <= a < |waves| ==> WaveOk(entries, p, waves[a])
    decreases |pending|
  {
    if pending != [] {
      PlanStep(entries, p, pending);
      hide WaveOk;
      hide Schedulable;
      hide Later;
      var later, waves := Later(entries, p, pending), Plan(entries, p, pending);
      PlanPartitions(entries, p, later);
      FlattenFromFirst(waves);
    }
  }

  lemma {:induction false} NothingIsFeasible(entries: Registry, p: Policy)
    ensures Feasible(entries, p, [])
  {
  }

  lemma {:induction false} FlattenFromFirst(waves: seq<seq<Id>>)
    requires waves != []
    ensures Flatten(waves) == waves[0] + Flatten(waves[1..])
  {
    var n := |waves| - 1;
    if n > 0 {
      FlattenFromFirst(waves[..n]);
      assert waves[1..][..n - 1] == waves[..n][1..];
    } else {
      assert waves[..0] == [];
    }
  }

  lemma {:induction false} InFlatten(waves: seq<seq<Id>>, a: nat, x: Id)
    requires a < |waves| && x in waves[a]
    ensures x in Flatten(waves)
  {
    if a < |waves| - 1 {
      InFlatten(waves[..|waves| - 1], a, x);
    }
  }

  lemma {:induction false} PlannedIsPending(entries: Registry, p: Policy, pending: seq<Id>, a: nat, x: Id)
    requires Schedulable(entries, p, pending) && a < |Plan(entries, p, pending)| && x in Plan(entries, p, pending)[a]
    ensures x in pending
  {
    InFlatten(Plan(entries, p, pending), a, x);
    PlanPartitions(entries, p, pending);
    assert x in multiset(Flatten(Plan(entries, p, pending)));
    assert x in multiset(pending);
  }

  // ---------------------------------------------------------------- order

  ghost predicate Before(s: seq<Id>, x: Id, y: Id) {
    exists i, j :: 0 <= i < j < |s| && s[i] == x && s[j] == y
  }

  lemma {:induction false} BeforeCons(h: Id, s: seq<Id>, x: Id, y: Id)
    ensures Before([h] + s, x, y) <==> (x == h && y in s) || Before(s, x, y)
  {
    var t := [h] + s;
    if Before(t, x, y) {
      var i, j :| 0 <= i < j < |t| && t[i] == x && t[j] == y;
      assert s[j - 1] == y;
      if i > 0 {
        assert s[i - 1] == x;
      }
    }
    if x == h && y in s {
      var j :| 0 <= j < |s| && s[j] == y;
      assert t[0] == x && t[j + 1] == y;
    }
    if Before(s, x, y) {
      var i, j :| 0 <= i < j < |s| && s[i] == x && s[j] == y;
      assert t[i + 1] == x && t[j + 1] == y;
    }
  }

  lemma {:induction false} BeforeIn(s: seq<Id>, x: Id, y: Id)
    requires Before(s, x, y)
    ensures x in s && y in s
    ensures Distinct(s) ==> x != y && !Before(s, y, x)
  {
  }

  lemma {:induction false} NotBefore(s: seq<Id>, x: Id, y: Id)
    requires x !in s || y !in s
    ensures !Before(s, x, y)
  {
  }

  lemma {:induction false} RestIsPending(entries: Registry, p: Policy, pending: seq<Id>, wave: seq<Id>, x: Id)
    requires Known(entries, pending) && Known(entries, wave)
    requires x in FirstFit(entries, p, pending, wave).rest || (x in FirstFit(entries, p, pending, wave).wave && x !in wave)
    ensures x in pending
  {
    hide Feasible;
    if pending != [] && entries[pending[0]].safe && x != pending[0] {
      var h := pending[0];
      RestIsPending(entries, p, pending[1..], if Feasible(entries, p, wave + [h]) then wave + [h] else wave, x);
    }
  }

  /** What waits keeps its order; nothing waits twice. */
  lemma {:induction false} RestDistinct(entries: Registry, p: Policy, pending: seq<Id>, wave: seq<Id>)
    requires Known(entries, pending) && Known(entries, wave) && Distinct(pending)
    ensures var rest := FirstFit(entries, p, pending, wave).rest; Distinct(rest) && forall x :: x in rest ==> x in pending
  {
    hide Feasible;
    if pending != [] && entries[pending[0]].safe {
      var h, later := pending[0], pending[1..];
      assert h !in later;
      RestDistinct(entries, p, later, if Feasible(entries, p, wave + [h]) then wave + [h] else wave);
    }
  }

  lemma {:induction false} RestKeepsOrder(entries: Registry, p: Policy, pending: seq<Id>, wave: seq<Id>, x: Id, y: Id)
    requires Known(entries, pending) && Known(entries, wave) && Distinct(pending)
    requires x in FirstFit(entries, p, pending, wave).rest && y in FirstFit(entries, p, pending, wave).rest
    ensures Before(pending, x, y) <==> Before(FirstFit(entries, p, pending, wave).rest, x, y)
  {
    hide Feasible;
    hide Before;
    if pending != [] && entries[pending[0]].safe {
      var h, later := pending[0], pending[1..];
      assert pending == [h] + later && h !in later;
      BeforeCons(h, later, x, y);
      if Feasible(entries, p, wave + [h]) {
        RestKeepsOrder(entries, p, later, wave + [h], x, y);
        RestIsPending(entries, p, later, wave + [h], x);
      } else {
        var rest := FirstFit(entries, p, later, wave).rest;
        BeforeCons(h, rest, x, y);
        RestDistinct(entries, p, later, wave);
        if x == h || y == h {
          NotBefore(later, x, y);
          NotBefore(rest, x, y);
        }
        if x != h && y != h {
          RestKeepsOrder(entries, p, later, wave, x, y);
        }
      }
    }
  }

  /** Nothing behind an unsafe entry gets ahead of it. */
  lemma {:induction false} NothingPasses(entries: Registry, p: Policy, pending: seq<Id>, wave: seq<Id>, u: Id, y: Id)
    requires Known(entries, pending) && Known(entries, wave) && Distinct(pending) && y !in wave
    requires Before(pending, u, y) && !entries[u].safe
    ensures y !in FirstFit(entries, p, pending, wave).wave
  {
    hide Feasible;
    hide Before;
    BeforeIn(pending, u, y);
    var h, later := pending[0], pending[1..];
    assert pending == [h] + later && h !in later;
    if entries[h].safe {
      BeforeCons(h, later, u, y);
      BeforeIn(later, u, y);
      NothingPasses(entries, p, later, if Feasible(entries, p, wave + [h]) then wave + [h] else wave, u, y);
    }
  }

  lemma {:induction false} LaterKeepsOrder(entries: Registry, p: Policy, pending: seq<Id>, x: Id, y: Id)
    requires Schedulable(entries, p, pending) && pending != [] && Distinct(pending)
    requires x in Later(entries, p, pending) && y in Later(entries, p, pending)
    ensures Before(pending, x, y) <==> Before(Later(entries, p, pending), x, y)
    ensures Distinct(Later(entries, p, pending)) && x in pending && y in pending
  {
    hide Feasible;
    hide Before;
    if entries[pending[0]].safe {
      RestDistinct(entries, p, pending, []);
      RestKeepsOrder(entries, p, pending, [], x, y);
    } else {
      assert pending == [pending[0]] + pending[1..];
      BeforeCons(pending[0], pending[1..], x, y);
    }
  }

  lemma {:induction false} FirstWave(entries: Registry, p: Policy, pending: seq<Id>)
    requires Schedulable(entries, p, pending) && pending != []
    ensures Plan(entries, p, pending) != []
    ensures Plan(entries, p, pending)[0] == if entries[pending[0]].safe then FirstFit(entries, p, pending, []).wave else [pending[0]]
  {
  }

  /** An unsafe entry separates waves: what stands before it in the request runs earlier, what stands after it later. */
  lemma {:induction false} UnsafeIsBarrier(entries: Registry, p: Policy, pending: seq<Id>, x: Id, y: Id, a: nat, b: nat)
    requires Schedulable(entries, p, pending) && Distinct(pending)
    requires Before(pending, x, y) && (!entries[x].safe || !entries[y].safe)
    requires a < |Plan(entries, p, pending)| && b < |Plan(entries, p, pending)|
    requires x in Plan(entries, p, pending)[a] && y in Plan(entries, p, pending)[b]
    ensures a < b
    decreases |pending|
  {
    BeforeIn(pending, x, y);
    PlanStep(entries, p, pending);
    FirstWave(entries, p, pending);
    hide Feasible;
    hide Before;
    var later, waves := Later(entries, p, pending), Plan(entries, p, pending);
    if a > 0 {
      assert waves[a] == waves[1..][a - 1];
      PlannedIsPending(entries, p, later, a - 1, x);
      if b == 0 {
        SecondInFirst(entries, p, pending, x, y);
      } else {
        assert waves[b] == waves[1..][b - 1];
        PlannedIsPending(entries, p, later, b - 1, y);
        LaterKeepsOrder(entries, p, pending, x, y);
        UnsafeIsBarrier(entries, p, later, x, y, a - 1, b - 1);
      }
    } else if b == 0 {
      FirstFitGrows(entries, p, pending, []);
    }
  }

  /** The first wave takes no entry past an unsafe one, nor one that stands behind its only, unsafe, member. */
  lemma {:induction false} SecondInFirst(entries: Registry, p: Policy, pending: seq<Id>, x: Id, y: Id)
    requires Schedulable(entries, p, pending) && Distinct(pending) && pending != []
    requires Before(pending, x, y) && (!entries[x].safe || !entries[y].safe)
    requires x in Later(entries, p, pending)
    ensures y !in Plan(entries, p, pending)[0]
  {
    FirstWave(entries, p, pending);
    BeforeIn(pending, x, y);
    FirstFitGrows(entries, p, pending, []);
    if entries[pending[0]].safe {
      if !entries[x].safe {
        NothingPasses(entries, p, pending, [], x, y);
      }
    } else {
      assert x != pending[0];
      assert pending == [pending[0]] + pending[1..];
      BeforeCons(pending[0], pending[1..], x, y);
    }
  }

  // ---------------------------------------------------------------- no entry waits without need

  /** The members of the wave from `from` on split at `n` into those ahead of `y` and those behind it. */
  ghost predicate SplitsAt(s: seq<Id>, wave: seq<Id>, from: nat, n: nat, y: Id) {
    && from <= n <= |wave|
    && (forall m :: from <= m < n ==> Before(s, wave[m], y))
    && (forall m :: n <= m < |wave| ==> Before(s, y, wave[m]))
  }

  ghost predicate Refused(entries: Registry, p: Policy, s: seq<Id>, wave: seq<Id>, from: nat, y: Id)
    requires Known(entries, wave) && y in entries
  {
    exists n: nat :: SplitsAt(s, wave, from, n, y) && !Feasible(entries, p, wave[..n] + [y])
  }

  lemma {:induction false} SplitCons(h: Id, s: seq<Id>, wave: seq<Id>, from: nat, n: nat, y: Id)
    requires SplitsAt(s, wave, from, n, y)
    ensures SplitsAt([h] + s, wave, from, n, y)
  {
    forall x, z | Before(s, x, z)
      ensures Before([h] + s, x, z)
    {
      BeforeCons(h, s, x, z);
    }
    hide Before;
  }

  lemma {:induction false} RefusedCons(entries: Registry, p: Policy, h: Id, s: seq<Id>, wave: seq<Id>, from: nat, y: Id)
    requires Known(entries, wave) && y in entries && Refused(entries, p, s, wave, from, y)
    ensures Refused(entries, p, [h] + s, wave, from, y)
  {
    hide Feasible;
    hide Before;
    var n: nat :| SplitsAt(s, wave, from, n, y) && !Feasible(entries, p, wave[..n] + [y]);
    SplitCons(h, s, wave, from, n, y);
  }

  lemma {:induction false} RefusedLonger(entries: Registry, p: Policy, s: seq<Id>, wave: seq<Id>, from: nat, y: Id)
    requires Known(entries, wave) && y in entries && Refused(entries, p, s, wave, from + 1, y)
    requires from < |wave| && Before(s, wave[from], y)
    ensures Refused(entries, p, s, wave, from, y)
  {
  }

  /** Every entry up to `y` is safe. */
  ghost predicate SafeUpTo(entries: Registry, s: seq<Id>, y: Id) {
    y in entries && entries[y].safe && forall u :: Before(s, u, y) ==> u in entries && entries[u].safe
  }

  lemma {:induction false} SafeLater(entries: Registry, h: Id, s: seq<Id>, y: Id)
    requires SafeUpTo(entries, [h] + s, y) && y in [h] + s
    ensures SafeUpTo(entries, s, y) && h in entries && entries[h].safe
    ensures y != h ==> Before([h] + s, h, y) && y in s
  {
    forall u | Before(s, u, y)
      ensures Before([h] + s, u, y)
    {
      BeforeCons(h, s, u, y);
    }
    BeforeCons(h, s, h, y);
    hide Before;
  }

  /** Head of the queue, skipped: it did not fit beside the wave so far, and all later members stand behind it. */
  lemma {:induction false} HeadRefused(entries: Registry, p: Policy, h: Id, later: seq<Id>, wave: seq<Id>)
    requires Known(entries, [h] + later) && Known(entries, wave) && Known(entries, later)
    requires !Feasible(entries, p, wave + [h])
    requires Known(entries, FirstFit(entries, p, later, wave).wave)
    ensures Refused(entries, p, [h] + later, FirstFit(entries, p, later, wave).wave, |wave|, h)
  {
    hide Feasible;
    hide Before;
    var w := FirstFit(entries, p, later, wave).wave;
    FirstFitGrows(entries, p, later, wave);
    forall m | |wave| <= m < |w|
      ensures Before([h] + later, h, w[m])
    {
      TakenFrom(entries, p, later, wave, m);
      BeforeCons(h, later, h, w[m]);
    }
    assert w[..|wave|] == wave;
    assert SplitsAt([h] + later, w, |wave|, |wave|, h);
  }

  lemma {:induction false} FirstFitRefuses(entries: Registry, p: Policy, pending: seq<Id>, wave: seq<Id>, y: Id)
    requires Known(entries, pending) && Known(entries, wave) && Distinct(pending)
    requires y in FirstFit(entries, p, pending, wave).rest && y in pending && SafeUpTo(entries, pending, y)
    ensures Known(entries, FirstFit(entries, p, pending, wave).wave)
    ensures Refused(entries, p, pending, FirstFit(entries, p, pending, wave).wave, |wave|, y)
  {
    hide Feasible;
    hide Before;
    hide SafeUpTo;
    hide Refused;
    FirstFitGrows(entries, p, pending, wave);
    var h, later := pending[0], pending[1..];
    assert pending == [h] + later && h !in later;
    SafeLater(entries, h, later, y);
    if Feasible(entries, p, wave + [h]) {
      RestIsPending(entries, p, later, wave + [h], y);
      FirstFitRefuses(entries, p, later, wave + [h], y);
      FirstFitGrows(entries, p, later, wave + [h]);
      var w := FirstFit(entries, p, later, wave + [h]).wave;
      assert w[|wave|] == h;
      RefusedCons(entries, p, h, later, w, |wave| + 1, y);
      RefusedLonger(entries, p, pending, w, |wave|, y);
    } else if y == h {
      HeadRefused(entries, p, h, later, wave);
    } else {
      FirstFitRefuses(entries, p, later, wave, y);
      RefusedCons(entries, p, h, later, FirstFit(entries, p, later, wave).wave, |wave|, y);
    }
  }

  /** What first fit adds to a wave comes from what was pending. */
  lemma {:induction false} TakenFrom(entries: Registry, p: Policy, pending: seq<Id>, wave: seq<Id>, m: nat)
    requires Known(entries, pending) && Known(entries, wave) && |wave| <= m < |FirstFit(entries, p, pending, wave).wave|
    ensures FirstFit(entries, p, pending, wave).wave[m] in pending
  {
    hide Feasible;
    if pending != [] && entries[pending[0]].safe {
      var h := pending[0];
      if Feasible(entries, p, wave + [h]) {
        FirstFitGrows(entries, p, pending[1..], wave + [h]);
        if m > |wave| {
          TakenFrom(entries, p, pending[1..], wave + [h], m);
        }
      } else {
        TakenFrom(entries, p, pending[1..], wave, m);
      }
    }
  }

  /** No unsafe entry stands at or between the two. */
  ghost predicate Clear(entries: Registry, s: seq<Id>, x: Id, y: Id) {
    && x in entries && y in entries && entries[x].safe && entries[y].safe
    && forall u :: Between(s, x, u, y) ==> u in entries && entries[u].safe
  }

  ghost predicate Between(s: seq<Id>, x: Id, u: Id, y: Id) {
    (Before(s, x, u) && Before(s, u, y)) || (Before(s, y, u) && Before(s, u, x))
  }

  lemma {:induction false} BeforeTotal(s: seq<Id>, x: Id, y: Id)
    requires x in s && y in s && x != y
    ensures Before(s, x, y) || Before(s, y, x)
  {
  }

  lemma {:induction false} ClearMeansSafe(entries: Registry, s: seq<Id>, x: Id, u: Id, y: Id)
    requires Clear(entries, s, x, y) && Before(s, x, u) && Before(s, u, y)
    ensures u in entries && entries[u].safe
  {
  }

  lemma {:induction false} PlannedKnown(entries: Registry, p: Policy, pending: seq<Id>, a: nat)
    requires Schedulable(entries, p, pending) && a < |Plan(entries, p, pending)|
    ensures Known(entries, Plan(entries, p, pending)[a])
  {
    PlanPartitions(entries, p, pending);
  }

  lemma {:induction false} ClearFromFirst(entries: Registry, p: Policy, pending: seq<Id>, x: Id, y: Id)
    requires Schedulable(entries, p, pending) && Distinct(pending) && pending != [] && Clear(entries, pending, x, y)
    requires x in Plan(entries, p, pending)[0] && x in pending
    ensures entries[pending[0]].safe && SafeUpTo(entries, pending, y)
  {
    hide Feasible;
    hide Before;
    FirstWave(entries, p, pending);
    forall u | Before(pending, u, y)
      ensures u in entries && entries[u].safe
    {
      BeforeIn(pending, u, y);
      if u != x {
        BeforeTotal(pending, u, x);
        if Before(pending, x, u) {
          ClearMeansSafe(entries, pending, x, u, y);
        } else if !entries[u].safe {
          NothingPasses(entries, p, pending, [], u, x);
        }
      }
    }
  }

  lemma {:induction false} ClearLater(entries: Registry, p: Policy, pending: seq<Id>, x: Id, y: Id)
    requires Schedulable(entries, p, pending) && Distinct(pending) && pending != [] && Clear(entries, pending, x, y)
    requires x in Later(entries, p, pending) && y in Later(entries, p, pending)
    ensures Clear(entries, Later(entries, p, pending), x, y)
  {
    hide Feasible;
    hide Before;
    hide Later;
    var later := Later(entries, p, pending);
    forall u | Between(later, x, u, y)
      ensures u in entries && entries[u].safe
    {
      BetweenIn(later, x, u, y);
      LaterKeepsOrder(entries, p, pending, x, u);
      LaterKeepsOrder(entries, p, pending, u, x);
      LaterKeepsOrder(entries, p, pending, u, y);
      LaterKeepsOrder(entries, p, pending, y, u);
      assert Between(pending, x, u, y);
    }
  }

  lemma {:induction false} BetweenIn(s: seq<Id>, x: Id, u: Id, y: Id)
    requires Between(s, x, u, y)
    ensures u in s
  {
  }

  lemma {:induction false} RefusedEarlier(entries: Registry, p: Policy, pending: seq<Id>, wave: seq<Id>, y: Id)
    requires Schedulable(entries, p, pending) && Distinct(pending) && pending != [] && Known(entries, wave)
    requires y in entries && y in Later(entries, p, pending) && forall m :: 0 <= m < |wave| ==> wave[m] in Later(entries, p, pending)
    requires Refused(entries, p, Later(entries, p, pending), wave, 0, y)
    ensures Refused(entries, p, pending, wave, 0, y)
  {
    hide Feasible;
    hide Before;
    hide Later;
    var later := Later(entries, p, pending);
    var n: nat :| SplitsAt(later, wave, 0, n, y) && !Feasible(entries, p, wave[..n] + [y]);
    forall m | 0 <= m < |wave|
      ensures m < n ==> Before(pending, wave[m], y)
      ensures m >= n ==> Before(pending, y, wave[m])
    {
      LaterKeepsOrder(entries, p, pending, wave[m], y);
      LaterKeepsOrder(entries, p, pending, y, wave[m]);
    }
    assert SplitsAt(pending, wave, 0, n, y);
  }

  /**
   No entry waits without need: if `y` runs in a later wave than `x` and no unsafe entry
   stands at or between them, then `y` did not fit beside those members of the earlier
   wave that stand ahead of it.
   */
  lemma {:induction false} PlanIsGreedy(entries: Registry, p: Policy, pending: seq<Id>, x: Id, y: Id, a: nat, b: nat)
    requires Schedulable(entries, p, pending) && Distinct(pending) && Clear(entries, pending, x, y)
    requires a < b < |Plan(entries, p, pending)|
    requires x in Plan(entries, p, pending)[a] && y in Plan(entries, p, pending)[b]
    ensures Known(entries, Plan(entries, p, pending)[a])
    ensures Refused(entries, p, pending, Plan(entries, p, pending)[a], 0, y)
    decreases |pending|
  {
    hide WaveOk;
    hide Feasible;
    hide Before;
    hide Refused;
    hide Clear;
    hide SafeUpTo;
    PlannedKnown(entries, p, pending, a);
    PlannedIsPending(entries, p, pending, a, x);
    PlanStep(entries, p, pending);
    var later, waves := Later(entries, p, pending), Plan(entries, p, pending);
    assert waves[b] == waves[1..][b - 1];
    PlannedIsPending(entries, p, later, b - 1, y);
    if a == 0 {
      ClearFromFirst(entries, p, pending, x, y);
      FirstWave(entries, p, pending);
      RestIsPending(entries, p, pending, [], y);
      FirstFitRefuses(entries, p, pending, [], y);
    } else {
      assert waves[a] == waves[1..][a - 1];
      PlannedIsPending(entries, p, later, a - 1, x);
      ClearLater(entries, p, pending, x, y);
      LaterKeepsOrder(entries, p, pending, x, y);
      PlanIsGreedy(entries, p, later, x, y, a - 1, b - 1);
      forall m | 0 <= m < |waves[a]|
        ensures waves[a][m] in later
      {
        PlannedIsPending(entries, p, later, a - 1, waves[a][m]);
      }
      RefusedEarlier(entries, p, pending, waves[a], y);
    }
  }

  lemma {:induction false} LoadGrows(entries: Registry, wave: seq<Id>, n: nat)
    requires Known(entries, wave) && n <= |wave|
    ensures var some, all := Load(entries, wave[..n]), Load(entries, wave);
            some.cpu <= all.cpu && some.memory <= all.memory && some.io <= all.io
  {
    if n < |wave| {
      var shorter := wave[..|wave| - 1];
      LoadGrows(entries, shorter, n);
      assert shorter[..n] == wave[..n];
    } else {
      assert wave[..n] == wave;
    }
  }

  /** Hence it could not have been added to the whole wave either. */
  lemma {:induction false} RefusedByWhole(entries: Registry, p: Policy, s: seq<Id>, wave: seq<Id>, y: Id)
    requires Known(entries, wave) && y in entries && Refused(entries, p, s, wave, 0, y)
    ensures !Feasible(entries, p, wave + [y])
  {
    hide Before;
    hide Clash;
    var n: nat :| SplitsAt(s, wave, 0, n, y) && !Feasible(entries, p, wave[..n] + [y]);
    var part, whole := wave[..n] + [y], wave + [y];
    assert part[..n] == wave[..n] && whole[..|wave|] == wave;
    LoadGrows(entries, wave, n);
    if Feasible(entries, p, whole) {
      NoClashInPart(entries, wave, n, y);
    }
  }

  lemma {:induction false} NoClashInPart(entries: Registry, wave: seq<Id>, n: nat, y: Id)
    requires Known(entries, wave) && y in entries && n <= |wave|
    requires forall i, j :: 0 <= i < j < |wave + [y]| ==> !Clash(entries, (wave + [y])[i], (wave + [y])[j])
    ensures var part := wave[..n] + [y]; forall i, j :: 0 <= i < j < |part| ==> !Clash(entries, part[i], part[j])
  {
    hide Clash;
    var part, whole := wave[..n] + [y], wave + [y];
    forall i, j | 0 <= i < j < |part|
      ensures !Clash(entries, part[i], part[j])
    {
      assert part[i] == whole[i];
      assert part[j] == whole[if j == n then |wave| else j];
    }
  }

  // ---------------------------------------------------------------- limits, resource by resource

  /** The sum of one weight over some entries. */
  ghost function Total(entries: Registry, ids: seq<Id>, weight: Entry -> nat): nat
    requires Known(entries, ids)
  {
    if ids == [] then 0 else weight(entries[ids[0]]) + Total(entries, ids[1..], weight)
  }

  lemma {:induction false} TotalLast(entries: Registry, ids: seq<Id>, weight: Entry -> nat)
    requires Known(entries, ids) && ids != []
    ensures Total(entries, ids, weight) == Total(entries, ids[..|ids| - 1], weight) + weight(entries[ids[|ids| - 1]])
  {
    if |ids| > 1 {
      TotalLast(entries, ids[1..], weight);
      assert ids[1..][..|ids| - 2] == ids[..|ids| - 1][1..];
    }
  }

  lemma {:induction false} LoadIsTotal(entries: Registry, ids: seq<Id>)
    requires Known(entries, ids)
    ensures var d := Load(entries, ids);
            && d.cpu == Total(entries, ids, (e: Entry) => e.cpu)
            && d.memory == Total(entries, ids, (e: Entry) => e.memory)
            && d.io == Total(entries, ids, (e: Entry) => e.io)
  {
    if ids != [] {
      LoadIsTotal(entries, ids[..|ids| - 1]);
      TotalLast(entries, ids, (e: Entry) => e.cpu);
      TotalLast(entries, ids, (e: Entry) => e.memory);
      TotalLast(entries, ids, (e: Entry) => e.io);
    }
  }

  /** Within every limit of the policy, spelled out. */
  ghost predicate Fits(entries: Registry, p: Policy, ids: seq<Id>)
    requires Known(entries, ids)
  {
    && |ids| <= p.maxWorkers
    && Total(entries, ids, (e: Entry) => e.cpu) <= p.cpu
    && Total(entries, ids, (e: Entry) => e.memory) <= p.memory
    && Total(entries, ids, (e: Entry) => e.io) <= p.io
    && forall i, j :: 0 <= i < j < |ids| ==>
         entries[ids[i]].exclusive.None? || entries[ids[j]].exclusive.None? || entries[ids[i]].exclusive != entries[ids[j]].exclusive
  }

  lemma {:induction false} FeasibleFits(entries: Registry, p: Policy, ids: seq<Id>)
    requires Known(entries, ids)
    ensures Feasible(entries, p, ids) <==> Fits(entries, p, ids)
  {
    LoadIsTotal(entries, ids);
    hide Load;
    hide Total;
    if Fits(entries, p, ids) {
      forall i, j | 0 <= i < j < |ids|
        ensures !Clash(entries, ids[i], ids[j])
      {
      }
    }
    if Feasible(entries, p, ids) {
      forall i, j | 0 <= i < j < |ids|
        ensures entries[ids[i]].exclusive.None? || entries[ids[j]].exclusive.None? || entries[ids[i]].exclusive != entries[ids[j]].exclusive
      {
        assert !Clash(entries, ids[i], ids[j]);
      }
    }
  }

  /** Every planned wave stays within each capacity, the worker limit and the exclusive resources. */
  lemma {:induction false} PlanFits(entries: Registry, p: Policy, pending: seq<Id>, a: nat)
    requires Schedulable(entries, p, pending) && a < |Plan(entries, p, pending)|
    ensures Known(entries, Plan(entries, p, pending)[a]) && Plan(entries, p, pending)[a] != []
    ensures Fits(entries, p, Plan(entries, p, pending)[a])
  {
    PlanPartitions(entries, p, pending);
    hide Feasible;
    FeasibleFits(entries, p, Plan(entries, p, pending)[a]);
  }

  /** Registered, and no weight of it exceeds its capacity. */
  ghost predicate FitsAlone(entries: Registry, p: Policy, x: Id) {
    x in entries && entries[x].cpu <= p.cpu && entries[x].memory <= p.memory && entries[x].io <= p.io
  }

  lemma {:induction false} AloneIsFeasible(entries: Registry, p: Policy, x: Id)
    requires p.maxWorkers >= 1 && x in entries
    ensures Feasible(entries, p, [x]) <==> FitsAlone(entries, p, x)
  {
    assert [x][..0] == [];
    assert Load(entries, [x]) == Plus(Load(entries, []), entries[x]);
  }

  /** A request can be planned exactly when every entry is registered and fits the capacities alone. */
  lemma {:induction false} SchedulableMeans(entries: Registry, p: Policy, ids: seq<Id>)
    requires p.maxWorkers >= 1
    ensures Schedulable(entries, p, ids) <==> forall x :: x in ids ==> FitsAlone(entries, p, x)
  {
    forall x | x in entries
      ensures Feasible(entries, p, [x]) <==> FitsAlone(entries, p, x)
    {
      AloneIsFeasible(entries, p, x);
    }
    hide Feasible;
  }
}
