/** The loops of `select_impact`, and the case in which a larger change selects less. */
module ImpactRun {
  import opened Ordering
  import opened CheckNames
  import opened Impact

  datatype Mode = ImpactSafe | LowRiskBaselineOnly | BaselineNoChanges | ConservativeFull

  datatype Outcome =
    | Selection(selected: seq<Id>, deferred: seq<Id>, affected: set<Id>, reason: Option<Reason>, mode: Mode)
    | LowRiskOverlap(path: Id)

  /** Entries of the mandatory modules of all critical rules, and whether a module has none. */
  method MandatoryEntries(c: Config, paths: set<Id>) returns (mandatory: set<Id>, gap: bool)
    ensures forall e :: e in mandatory <==> exists m :: ModuleNeeded(c, paths, m) && e in c.moduleEntries(m)
    ensures gap <==> exists m :: ModuleNeeded(c, paths, m) && c.moduleEntries(m) == {}
  {
    var modules := set r, m | r in c.rules && (exists p :: p in paths && c.hits(r, p)) && m in c.rules[r] :: m;
    assert forall m :: m in modules <==> ModuleNeeded(c, paths, m) by {
      forall m
        ensures m in modules <==> ModuleNeeded(c, paths, m)
      {
        if m in modules {
          var r :| r in c.rules && (exists p :: p in paths && c.hits(r, p)) && m in c.rules[r];
          assert RuleApplies(c, paths, r);
        }
      }
    }
    hide ModuleNeeded;
    mandatory, gap := Union(modules, c.moduleEntries);
  }

  /** The union of the entries of some keys, and whether a key has none. */
  method Union(keys: set<Id>, entriesOf: Id -> set<Id>) returns (all: set<Id>, gap: bool)
    ensures forall e :: e in all <==> exists k :: k in keys && e in entriesOf(k)
    ensures gap <==> exists k :: k in keys && entriesOf(k) == {}
  {
    all, gap := {}, false;
    var rest := keys;
    while rest != {}
      invariant rest <= keys
      invariant forall e :: e in all <==> exists k :: k in keys - rest && e in entriesOf(k)
      invariant gap <==> exists k :: k in keys - rest && entriesOf(k) == {}
    {
      var k :| k in rest;
      assert keys - (rest - {k}) == (keys - rest) + {k};
      if entriesOf(k) == {} {
        gap := true;
      }
      all := all + entriesOf(k);
      rest := rest - {k};
    }
    assert keys - {} == keys;
  }

  method PathOwners(c: Config, paths: set<Id>) returns (direct: set<Id>, unresolved: bool)
    ensures direct == Direct(c, paths)
    ensures unresolved <==> exists p :: p in paths && Unresolved(c, p)
  {
    direct, unresolved := {}, false;
    var rest := paths;
    while rest != {}
      invariant rest <= paths && direct == Direct(c, paths - rest)
      invariant unresolved <==> exists p :: p in paths - rest && Unresolved(c, p)
    {
      var p :| p in rest;
      assert paths - (rest - {p}) == (paths - rest) + {p};
      direct := direct + c.owners(p);
      if c.owners(p) == {} && c.classes(p) == {} && !(exists r :: r in c.rules && c.hits(r, p)) {
        assert Unresolved(c, p);
        unresolved := true;
      } else {
        assert !Unresolved(c, p);
      }
      rest := rest - {p};
    }
    assert paths - {} == paths;
  }

  method Overlap(c: Config, paths: set<Id>) returns (p: Option<Id>)
    ensures p.None? <==> forall x :: x in paths ==> |c.classes(x)| <= 1
    ensures p.Some? ==> p.value in paths && |c.classes(p.value)| > 1
  {
    var rest := paths;
    while rest != {}
      invariant rest <= paths && forall x :: x in paths - rest ==> |c.classes(x)| <= 1
    {
      var x :| x in rest;
      if |c.classes(x)| > 1 { return Some(x); }
      rest := rest - {x};
    }
    return None;
  }

  ghost predicate MappedFrom(c: Config, checks: set<string>, all: set<Id>) {
    forall e :: e in all <==> exists k :: k in checks && e in CheckEntries(c, k)
  }

  ghost predicate SomeUnmapped(c: Config, checks: set<string>) {
    exists k :: k in checks && CheckEntries(c, k) == {}
  }

  lemma {:induction false} OneMoreCheck(c: Config, checks: set<string>, all: set<Id>, k: string)
    requires MappedFrom(c, checks, all)
    ensures MappedFrom(c, checks + {k}, all + CheckEntries(c, k))
    ensures SomeUnmapped(c, checks + {k}) <==> SomeUnmapped(c, checks) || CheckEntries(c, k) == {}
  {
    hide CheckEntries;
    if CheckEntries(c, k) == {} {
      assert k in checks + {k};
    }
    forall e | e in CheckEntries(c, k)
      ensures exists j :: j in checks + {k} && e in CheckEntries(c, j)
    {
      assert k in checks + {k};
    }
  }

  /** The mapped entries of all checks of the affected tasks, and whether a check maps to none. */
  method CheckedEntries(c: Config, affected: set<Id>) returns (impact: set<Id>, unmapped: bool)
    requires affected <= c.tasks.Keys
    ensures forall e :: e in impact <==> exists k :: CheckNeeded(c, affected, k) && e in CheckEntries(c, k)
    ensures unmapped <==> exists k :: CheckNeeded(c, affected, k) && CheckEntries(c, k) == {}
  {
    var checks := set t, k | t in affected && k in c.tasks[t].checks :: k;
    assert forall k :: k in checks <==> CheckNeeded(c, affected, k);
    hide CheckNeeded;
    impact, unmapped := MapChecks(c, checks);
    hide CheckEntries;
  }

  method MapChecks(c: Config, checks: set<string>) returns (impact: set<Id>, unmapped: bool)
    ensures MappedFrom(c, checks, impact) && (unmapped <==> SomeUnmapped(c, checks))
  {
    impact, unmapped := {}, false;
    var rest := checks;
    assert MappedFrom(c, {}, {}) && !SomeUnmapped(c, {}) && checks - rest == {};
    hide EntriesOf;
    hide MappedFrom;
    hide SomeUnmapped;
    while rest != {}
      invariant rest <= checks && MappedFrom(c, checks - rest, impact) && (unmapped <==> SomeUnmapped(c, checks - rest))
    {
      var k :| k in rest;
      assert checks - (rest - {k}) == (checks - rest) + {k};
      OneMoreCheck(c, checks - rest, impact, k);
      var ids := CheckToEntries(k, c.domains, c.aliases);
      if ids == {} {
        unmapped := true;
      }
      impact := impact + ids;
      rest := rest - {k};
    }
    assert checks - {} == checks;
  }

  lemma {:induction false} DirectKnown(c: Config, paths: set<Id>)
    requires ConfigOk(c)
    ensures Direct(c, paths) <= c.tasks.Keys && (paths == {} ==> Direct(c, paths) == {})
  {
  }

  lemma {:induction false} AffectedKnown(tasks: Tasks, direct: set<Id>, a: set<Id>)
    requires IsAffected(tasks, direct, a)
    ensures a <= tasks.Keys && (direct == {} ==> a == {})
  {
    if direct == {} {
      assert Upward(tasks, {});
    }
  }

  lemma {:induction false} UncertainMeans(c: Config, paths: set<Id>, affected: set<Id>, gap: bool, unresolved: bool, unmapped: bool)
    requires gap <==> exists m :: ModuleNeeded(c, paths, m) && c.moduleEntries(m) == {}
    requires unresolved <==> exists p :: p in paths && Unresolved(c, p)
    requires unmapped <==> exists k :: CheckNeeded(c, affected, k) && CheckEntries(c, k) == {}
    ensures Uncertain(c, paths, affected) <==> !c.current || gap || unresolved || unmapped
  {
  }

  lemma {:induction false} NeededMeans(c: Config, paths: set<Id>, affected: set<Id>, mandatory: set<Id>, impact: set<Id>)
    requires forall e :: e in mandatory <==> exists m :: ModuleNeeded(c, paths, m) && e in c.moduleEntries(m)
    requires forall e :: e in impact <==> exists k :: CheckNeeded(c, affected, k) && e in CheckEntries(c, k)
    ensures forall e :: EntryNeeded(c, paths, affected, e) <==> e in impact + mandatory
    ensures (exists e :: EntryNeeded(c, paths, affected, e)) <==> impact != {} || mandatory != {}
  {
    hide ModuleNeeded;
    hide CheckNeeded;
    if impact != {} {
      var e :| e in impact;
      assert EntryNeeded(c, paths, affected, e);
    }
    if mandatory != {} {
      var e :| e in mandatory;
      assert EntryNeeded(c, paths, affected, e);
    }
  }

  /** Without owners and critical rules nothing beyond the baseline is needed. */
  lemma {:induction false} NothingNeeded(c: Config, paths: set<Id>, affected: set<Id>)
    requires affected == {} && !exists p, rule :: p in paths && rule in c.rules && c.hits(rule, p)
    ensures forall e :: !EntryNeeded(c, paths, affected, e)
  {
  }

  /** Registry order is kept by both lists. */
  function Where(entries: seq<Id>, s: set<Id>, inside: bool): seq<Id> {
    if entries == [] then []
    else Where(entries[..|entries| - 1], s, inside) + if (entries[|entries| - 1] in s) == inside then [entries[|entries| - 1]] else []
  }

  lemma {:induction false} WhereContents(entries: seq<Id>, s: set<Id>, inside: bool, e: Id)
    ensures e in Where(entries, s, inside) <==> e in entries && (e in s) == inside
  {
    if entries != [] {
      WhereContents(entries[..|entries| - 1], s, inside, e);
      assert entries == entries[..|entries| - 1] + [entries[|entries| - 1]];
    }
  }

  /** The one sequence is left of the other when some places are struck out. */
  ghost predicate Subsequence(part: seq<Id>, whole: seq<Id>) {
    if part == [] then true
    else if whole == [] then false
    else
      || Subsequence(part, whole[..|whole| - 1])
      || (part[|part| - 1] == whole[|whole| - 1] && Subsequence(part[..|part| - 1], whole[..|whole| - 1]))
  }

  lemma {:induction false} WhereKeepsOrder(entries: seq<Id>, s: set<Id>, inside: bool)
    ensures Subsequence(Where(entries, s, inside), entries)
  {
    if entries != [] {
      var n := |entries| - 1;
      WhereKeepsOrder(entries[..n], s, inside);
      SubsequenceGrows(Where(entries[..n], s, inside), entries[..n], entries[n]);
    }
  }

  lemma {:induction false} SubsequenceGrows(part: seq<Id>, whole: seq<Id>, x: Id)
    requires Subsequence(part, whole)
    ensures Subsequence(part, whole + [x]) && Subsequence(part + [x], whole + [x]) && part + [] == part
  {
    assert (part + [x])[..|part|] == part && (whole + [x])[..|whole|] == whole;
  }

  lemma {:induction false} WhereLosesNothing(entries: seq<Id>, s: set<Id>)
    ensures multiset(Where(entries, s, true)) + multiset(Where(entries, s, false)) == multiset(entries)
  {
    if entries != [] {
      var n := |entries| - 1;
      WhereLosesNothing(entries[..n], s);
      assert entries == entries[..n] + [entries[n]];
    }
  }

  /** The mode of a selection for no reason of its own: by low-risk paths, by the lack of any, or by impact. */
  ghost predicate ModeIs(c: Config, paths: set<Id>, reason: Option<Reason>, mode: Mode) {
    var calm := forall p :: p in paths ==> c.classes(p) != {} && c.owners(p) == {} && !CriticalPath(c, p);
    && (mode == ConservativeFull <==> reason.Some?)
    && (mode == LowRiskBaselineOnly <==> reason.None? && paths != {} && calm)
    && (mode == BaselineNoChanges <==> reason.None? && paths == {})
    && (mode == ImpactSafe <==> reason.None? && paths != {} && !calm)
  }

  lemma {:induction false} OwnedPaths(c: Config, paths: set<Id>)
    ensures Direct(c, paths) != {} <==> exists p :: p in paths && c.owners(p) != {}
  {
    if p :| p in paths && c.owners(p) != {} {
      var t :| t in c.owners(p);
      assert t in Direct(c, paths);
    }
  }

  function FirstReason(current: bool, gap: bool, unresolved: bool, unmapped: bool, routeless: bool): Option<Reason> {
    if !current then Some(StaleMapping)
    else if gap then Some(MandatoryGap)
    else if unresolved then Some(UnknownPath)
    else if unmapped then Some(UnmappedCheck)
    else if routeless then Some(NoVerificationRoute)
    else None
  }

  lemma {:induction false} ReasonMeans(c: Config, paths: set<Id>, affected: set<Id>, gap: bool, unresolved: bool, unmapped: bool,
                                       needed: set<Id>, reason: Option<Reason>)
    requires gap <==> exists m :: ModuleNeeded(c, paths, m) && c.moduleEntries(m) == {}
    requires unresolved <==> exists p :: p in paths && Unresolved(c, p)
    requires unmapped <==> exists k :: CheckNeeded(c, affected, k) && CheckEntries(c, k) == {}
    requires forall e :: EntryNeeded(c, paths, affected, e) <==> e in needed
    requires reason == FirstReason(c.current, gap, unresolved, unmapped, Direct(c, paths) != {} && needed == {})
    ensures ReasonIs(c, paths, affected, reason)
  {
    OwnedPaths(c, paths);
    hide Direct;
    hide ModuleNeeded;
    hide CheckNeeded;
    hide Unresolved;
    hide EntryNeeded;
    assert (forall e :: !EntryNeeded(c, paths, affected, e)) <==> needed == {};
  }

  lemma {:induction false} ModeMeans(c: Config, paths: set<Id>, reason: Option<Reason>, mode: Mode)
    requires mode ==
      var low := forall p :: p in paths ==> c.classes(p) != {};
      if reason.Some? then ConservativeFull
      else if paths != {} && low && Direct(c, paths) == {} && !(exists p, rule :: p in paths && rule in c.rules && c.hits(rule, p)) then LowRiskBaselineOnly
      else if paths == {} then BaselineNoChanges
      else ImpactSafe
    ensures ModeIs(c, paths, reason, mode)
  {
    OwnedPaths(c, paths);
    hide Direct;
  }

  lemma {:induction false} RouteMeans(c: Config, paths: set<Id>, affected: set<Id>, impact: set<Id>, mandatory: set<Id>)
    requires (exists e :: EntryNeeded(c, paths, affected, e)) <==> impact != {} || mandatory != {}
    ensures NoRoute(c, paths, affected) <==>
              !Uncertain(c, paths, affected) && Direct(c, paths) != {} && impact == {} && mandatory == {}
  {
  }

  lemma {:induction false} ChosenMeans(c: Config, paths: set<Id>, affected: set<Id>, needed: set<Id>, full: bool, chosen: set<Id>)
    requires forall e :: EntryNeeded(c, paths, affected, e) <==> e in needed
    requires full <==> Uncertain(c, paths, affected) || NoRoute(c, paths, affected)
    requires chosen == if full then Elems(c.entries) else c.baseline + needed
    ensures forall e :: e in Where(c.entries, chosen, true) <==> Chosen(c, paths, affected, e)
    ensures forall e :: e in Where(c.entries, chosen, false) <==> e in c.entries && !Chosen(c, paths, affected, e)
    ensures !full && (forall e :: !EntryNeeded(c, paths, affected, e)) && c.baseline <= Elems(c.entries) ==>
              forall e :: e in Where(c.entries, chosen, true) <==> e in c.baseline
  {
    hide Uncertain;
    hide EntryNeeded;
    hide NoRoute;
    forall e
      ensures e in Where(c.entries, chosen, true) <==> e in c.entries && e in chosen
      ensures e in Where(c.entries, chosen, false) <==> e in c.entries && e !in chosen
    {
      WhereContents(c.entries, chosen, true, e);
      WhereContents(c.entries, chosen, false, e);
    }
    hide Where;
  }

  /**
   `select_impact`: selects exactly the chosen entries and defers exactly the others, both in
   registry order; everything is selected when the mapping is uncertain or no route is found.
   */
  method SelectImpact(c: Config, paths: set<Id>) returns (r: Outcome)
    requires ConfigOk(c)
    ensures r.LowRiskOverlap? <==> exists p :: p in paths && |c.classes(p)| > 1
    ensures r.LowRiskOverlap? ==> r.path in paths && |c.classes(r.path)| > 1
    ensures r.Selection? ==>
              && IsAffected(c.tasks, Direct(c, paths), r.affected)
              && (r.reason.Some? <==> Uncertain(c, paths, r.affected) || NoRoute(c, paths, r.affected))
              && ReasonIs(c, paths, r.affected, r.reason) && ModeIs(c, paths, r.reason, r.mode)
    ensures r.Selection? ==> Subsequence(r.selected, c.entries) && Subsequence(r.deferred, c.entries)
    ensures r.Selection? ==> multiset(r.selected) + multiset(r.deferred) == multiset(c.entries)
    ensures r.Selection? ==> forall e :: e in r.selected <==> Chosen(c, paths, r.affected, e)
    ensures r.Selection? ==> forall e :: e in r.deferred <==> e in c.entries && !Chosen(c, paths, r.affected, e)
    ensures r.Selection? && !r.mode.ConservativeFull? && !r.mode.ImpactSafe? ==>
              forall e :: e in r.selected <==> e in c.baseline
  {
    hide Uncertain;
    hide EntryNeeded;
    hide IsAffected;
    hide NoRoute;
    hide Chosen;
    hide Where;
    hide Direct;
    var overlap := Overlap(c, paths);
    if overlap.Some? { return LowRiskOverlap(overlap.value); }
    var direct, affected, needed, reason := Assess(c, paths);
    AffectedKnown(c.tasks, direct, affected);
    DirectKnown(c, paths);
    var low := forall p :: p in paths ==> c.classes(p) != {};
    var critical := exists p, rule :: p in paths && rule in c.rules && c.hits(rule, p);
    var mode :=
      if reason.Some? then ConservativeFull
      else if paths != {} && low && direct == {} && !critical then LowRiskBaselineOnly
      else if paths == {} then BaselineNoChanges
      else ImpactSafe;
    ModeMeans(c, paths, reason, mode);
    hide ModeIs;
    hide ReasonIs;
    hide Subsequence;
    if direct == {} && !critical {
      NothingNeeded(c, paths, affected);
    }
    var chosen := if reason.Some? then Elems(c.entries) else c.baseline + needed;
    ChosenMeans(c, paths, affected, needed, reason.Some?, chosen);
    WhereKeepsOrder(c.entries, chosen, true);
    WhereKeepsOrder(c.entries, chosen, false);
    WhereLosesNothing(c.entries, chosen);
    r := Selection(Where(c.entries, chosen, true), Where(c.entries, chosen, false), affected, reason, mode);
  }

  /** The owners, the affected tasks, the entries they and the critical rules need, and the fallback reason. */
  method Assess(c: Config, paths: set<Id>) returns (direct: set<Id>, affected: set<Id>, needed: set<Id>, reason: Option<Reason>)
    requires ConfigOk(c)
    ensures direct == Direct(c, paths) && IsAffected(c.tasks, direct, affected)
    ensures forall e :: EntryNeeded(c, paths, affected, e) <==> e in needed
    ensures reason.Some? <==> Uncertain(c, paths, affected) || NoRoute(c, paths, affected)
    ensures ReasonIs(c, paths, affected, reason)
  {
    hide Uncertain;
    hide EntryNeeded;
    hide ModuleNeeded;
    hide CheckNeeded;
    hide IsAffected;
    hide NoRoute;
    hide Direct;
    hide Unresolved;
    var mandatory, gap := MandatoryEntries(c, paths);
    var unresolved;
    direct, unresolved := PathOwners(c, paths);
    DirectKnown(c, paths);
    affected := AffectedTasks(c.tasks, direct);
    AffectedKnown(c.tasks, direct, affected);
    var impact, unmapped := CheckedEntries(c, affected);
    UncertainMeans(c, paths, affected, gap, unresolved, unmapped);
    NeededMeans(c, paths, affected, mandatory, impact);
    RouteMeans(c, paths, affected, impact, mandatory);
    reason := FirstReason(c.current, gap, unresolved, unmapped, direct != {} && impact == {} && mandatory == {});
    ReasonMeans(c, paths, affected, gap, unresolved, unmapped, impact + mandatory, reason);
    needed := impact + mandatory;
  }

  // ---------------------------------------------------------------- a larger change that selects less

  /** Two registry entries; path 1 belongs to a task without checks, path 2 to one whose check runs entry 1. */
  ghost function TwoTasks(): Config {
    Config([1, 2], {}, true, map[10 := Task({}, {}), 11 := Task({"probe"}, {})], map[],
           (p: Id) => if p == 1 then {10} else if p == 2 then {11} else {}, (p: Id) => {}, (r: Id, p: Id) => false,
           (m: Id) => {}, map["probe" := {1}], map[])
  }

  lemma {:induction false} TwoTasksOwners()
    ensures var c := TwoTasks(); Direct(c, {1}) == {10} && Direct(c, {1, 2}) == {10, 11} && ConfigOk(c)
    ensures forall p :: p in {1, 2} ==> !Unresolved(TwoTasks(), p)
  {
    var c := TwoTasks();
    assert 10 in c.owners(1) && 11 in c.owners(2);
  }

  lemma {:induction false} ProbeIsMapped()
    ensures CheckEntries(TwoTasks(), "probe") == {1}
  {
    var c := TwoTasks();
    assert Normalized("probe") == "probe";
    assert Matches("probe", "probe") && Contribution(c.domains, c.aliases, "probe") == {1};
    assert MostSpecific(c.domains, c.aliases, "probe", "probe");
    OneNameMaps(c.domains, c.aliases, "probe", "probe");
    MappingIsUnique(c.domains, c.aliases, "probe", {1}, CheckEntries(c, "probe"));
  }

  lemma {:induction false} TwoTasksNeeds(paths: set<Id>)
    ensures forall m :: !ModuleNeeded(TwoTasks(), paths, m)
    ensures forall k :: !CheckNeeded(TwoTasks(), {10}, k)
    ensures forall k :: CheckNeeded(TwoTasks(), {10, 11}, k) <==> k == "probe"
  {
  }

  /** Path 1 alone has no route and selects everything; paths 1 and 2 together leave entry 2 out. */
  lemma {:induction false} LargerChangeSelectsLess()
    ensures var c := TwoTasks();
            && ConfigOk(c) && IsAffected(c.tasks, Direct(c, {1}), {10}) && IsAffected(c.tasks, Direct(c, {1, 2}), {10, 11})
            && NoRoute(c, {1}, {10}) && Chosen(c, {1}, {10}, 2) && !Chosen(c, {1, 2}, {10, 11}, 2)
  {
    hide Direct;
    hide Unresolved;
    hide ModuleNeeded;
    hide CheckNeeded;
    hide ConfigOk;
    var c := TwoTasks();
    TwoTasksOwners();
    TwoTasksNeeds({1});
    TwoTasksNeeds({1, 2});
    ProbeIsMapped();
    hide EntriesOf;
    assert !EntryNeeded(c, {1, 2}, {10, 11}, 2);
    assert CheckNeeded(c, {10, 11}, "probe") && 1 in CheckEntries(c, "probe");
    assert EntryNeeded(c, {1, 2}, {10, 11}, 1);
  }
}
