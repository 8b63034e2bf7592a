/** Fail-closed test selection of `harness/impact_selection.py`. */
module Impact {
  import opened Ordering
  import opened CheckNames

  /** A task's checks and the tasks its implementation or verification depends on. */
  datatype Task = Task(checks: set<string>, deps: set<Id>)

  type Tasks = map<Id, Task>

  // ---------------------------------------------------------------- affected tasks

  /** Whatever depends on a member is a member. */
  ghost predicate Upward(tasks: Tasks, s: set<Id>) {
    forall t, d :: t in tasks && d in tasks[t].deps && d in s ==> t in s
  }

  /** The least upward closed set that holds `direct`. */
  ghost predicate IsAffected(tasks: Tasks, direct: set<Id>, a: set<Id>) {
    direct <= a && a <= tasks.Keys && Upward(tasks, a) && forall s :: direct <= s && Upward(tasks, s) ==> a <= s
  }

  lemma {:induction false} AffectedGrows(tasks: Tasks, direct: set<Id>, more: set<Id>, a: set<Id>, b: set<Id>)
    requires direct <= more && IsAffected(tasks, direct, a) && IsAffected(tasks, more, b)
    ensures a <= b
  {
  }

  function Dependents(tasks: Tasks, d: Id): set<Id> {
    set t | t in tasks && d in tasks[t].deps
  }

  /** Dependents are missing only for what is still queued; nothing is in without need. */
  ghost predicate Spreading(tasks: Tasks, direct: set<Id>, affected: set<Id>, queued: set<Id>) {
    && direct <= affected <= tasks.Keys && queued <= affected
    && (forall t, d :: t in tasks && d in tasks[t].deps && d in affected && d !in queued ==> t in affected)
    && (forall s :: direct <= s && Upward(tasks, s) ==> affected <= s)
  }

  lemma {:induction false} Spread(tasks: Tasks, direct: set<Id>, affected: set<Id>, queued: set<Id>, x: Id, left: set<Id>)
    requires Spreading(tasks, direct, affected, queued) && x in queued && queued <= left + {x} && left <= affected
    ensures var found := Dependents(tasks, x) - affected;
            Spreading(tasks, direct, affected + found, left + found)
  {
  }

  /** `_affected_tasks`: the queue loop over reversed dependencies. */
  method AffectedTasks(tasks: Tasks, direct: set<Id>) returns (affected: set<Id>)
    requires direct <= tasks.Keys
    ensures IsAffected(tasks, direct, affected)
  {
    hide Spreading;
    affected := direct;
    var queue := Sorted(direct);
    SpreadingStarts(tasks, direct);
    assert Elems(queue) == direct;
    while queue != []
      invariant Spreading(tasks, direct, affected, Elems(queue)) && affected <= tasks.Keys && Elems(queue) <= affected
      decreases tasks.Keys - affected, |queue|
    {
      var x := queue[0];
      var found := Dependents(tasks, x) - affected;
      QueueElems(queue, found);
      Spread(tasks, direct, affected, Elems(queue), x, Elems(queue[1..]));
      Shrinks(tasks.Keys, affected, found);
      queue := queue[1..] + Sorted(found);
      affected := affected + found;
    }
    assert Elems(queue) == {};
    SpreadingEnds(tasks, direct, affected);
  }

  lemma {:induction false} QueueElems(queue: seq<Id>, found: set<Id>)
    requires queue != []
    ensures queue[0] in Elems(queue) && Elems(queue[1..]) <= Elems(queue) <= Elems(queue[1..]) + {queue[0]}
    ensures Elems(queue[1..] + Sorted(found)) == Elems(queue[1..]) + found
    ensures found == {} ==> queue[1..] + Sorted(found) == queue[1..]
  {
  }

  lemma {:induction false} Shrinks(all: set<Id>, some: set<Id>, found: set<Id>)
    requires found <= all && found !! some
    ensures if found == {} then some + found == some else all - (some + found) < all - some
  {
  }

  lemma {:induction false} SpreadingStarts(tasks: Tasks, direct: set<Id>)
    requires direct <= tasks.Keys
    ensures Spreading(tasks, direct, direct, direct)
  {
  }

  lemma {:induction false} SpreadingEnds(tasks: Tasks, direct: set<Id>, affected: set<Id>)
    requires Spreading(tasks, direct, affected, {})
    ensures IsAffected(tasks, direct, affected)
  {
  }

  // ---------------------------------------------------------------- the selection

  /**
   Policy, registry and plan. `entries` is the registry in order; `owners`, `classes` and `hits`
   are the path matchers; `moduleEntries` maps modules to entries, `domains` and `aliases` do so for checks.
   */
  datatype Config = Config(entries: seq<Id>, baseline: set<Id>, current: bool, tasks: Tasks, rules: map<Id, set<Id>>,
                           owners: Id -> set<Id>, classes: Id -> set<Id>, hits: (Id, Id) -> bool,
                           moduleEntries: Id -> set<Id>, domains: Domains, aliases: Aliases)

  ghost predicate ConfigOk(c: Config) {
    && c.baseline <= Elems(c.entries) && (forall p :: c.owners(p) <= c.tasks.Keys)
    && (forall m :: c.moduleEntries(m) <= Elems(c.entries)) && (forall d :: d in c.domains ==> c.domains[d] != {} && c.domains[d] <= Elems(c.entries))
  }

  /** The entries that a check maps to. */
  ghost function CheckEntries(c: Config, k: string): set<Id> {
    EntriesOf(c.domains, c.aliases, k)
  }

  datatype Reason = StaleMapping | MandatoryGap | UnknownPath | UnmappedCheck | NoVerificationRoute

  ghost function Direct(c: Config, paths: set<Id>): set<Id> {
    set p, t | p in paths && t in c.owners(p) :: t
  }

  ghost predicate CriticalPath(c: Config, p: Id) {
    exists r :: r in c.rules && c.hits(r, p)
  }

  ghost predicate RuleApplies(c: Config, paths: set<Id>, r: Id) {
    r in c.rules && exists p :: p in paths && c.hits(r, p)
  }

  ghost predicate ModuleNeeded(c: Config, paths: set<Id>, m: Id) {
    exists r :: RuleApplies(c, paths, r) && m in c.rules[r]
  }

  ghost predicate CheckNeeded(c: Config, affected: set<Id>, k: string) {
    exists t :: t in affected && t in c.tasks && k in c.tasks[t].checks
  }

  ghost predicate Unresolved(c: Config, p: Id) {
    c.owners(p) == {} && c.classes(p) == {} && !CriticalPath(c, p)
  }

  ghost predicate EntryNeeded(c: Config, paths: set<Id>, affected: set<Id>, e: Id) {
    || (exists m :: ModuleNeeded(c, paths, m) && e in c.moduleEntries(m))
    || (exists k :: CheckNeeded(c, affected, k) && e in CheckEntries(c, k))
  }

  /** A reason of its own for selecting everything. */
  ghost predicate Uncertain(c: Config, paths: set<Id>, affected: set<Id>) {
    || !c.current || (exists m :: ModuleNeeded(c, paths, m) && c.moduleEntries(m) == {})
    || (exists p :: p in paths && Unresolved(c, p))
    || (exists k :: CheckNeeded(c, affected, k) && CheckEntries(c, k) == {})
  }

  ghost predicate NoRoute(c: Config, paths: set<Id>, affected: set<Id>) {
    && !Uncertain(c, paths, affected) && Direct(c, paths) != {}
    && !exists e :: EntryNeeded(c, paths, affected, e)
  }

  /** Everything is selected for the first of these reasons that there is. */
  ghost predicate ReasonIs(c: Config, paths: set<Id>, affected: set<Id>, reason: Option<Reason>) {
    var gap := exists m :: ModuleNeeded(c, paths, m) && c.moduleEntries(m) == {};
    var unknown := exists p :: p in paths && Unresolved(c, p);
    var unmapped := exists k :: CheckNeeded(c, affected, k) && CheckEntries(c, k) == {};
    && (reason == Some(StaleMapping) <==> !c.current)
    && (reason == Some(MandatoryGap) <==> c.current && gap)
    && (reason == Some(UnknownPath) <==> c.current && !gap && unknown)
    && (reason == Some(UnmappedCheck) <==> c.current && !gap && !unknown && unmapped)
    && (reason == Some(NoVerificationRoute) <==>
        && c.current && !gap && !unknown && !unmapped
        && (exists p :: p in paths && c.owners(p) != {}) && forall e :: !EntryNeeded(c, paths, affected, e))
  }

  ghost predicate Chosen(c: Config, paths: set<Id>, affected: set<Id>, e: Id) {
    && e in c.entries
    && (Uncertain(c, paths, affected) || NoRoute(c, paths, affected) || e in c.baseline || EntryNeeded(c, paths, affected, e))
  }

  /** Neither the baseline nor anything that the change needs. */
  ghost predicate Spared(c: Config, paths: set<Id>, affected: set<Id>, e: Id) {
    e in c.entries && e !in c.baseline && !EntryNeeded(c, paths, affected, e)
  }

  /**
   More changed paths select no fewer entries, exactly unless the smaller change fell back to
   everything for want of a route, and the larger one is certain, finds a route, and spares
   some entry.
   */
  lemma {:induction false} SelectionGrows(c: Config, paths: set<Id>, more: set<Id>, a: set<Id>, b: set<Id>)
    requires paths <= more && IsAffected(c.tasks, Direct(c, paths), a) && IsAffected(c.tasks, Direct(c, more), b)
    ensures (forall e :: Chosen(c, paths, a, e) ==> Chosen(c, more, b, e)) <==>
              !(NoRoute(c, paths, a) && !Uncertain(c, more, b) && (exists e :: EntryNeeded(c, more, b, e))
                && exists e :: Spared(c, more, b, e))
  {
    NeedsGrow(c, paths, more, a, b);
    hide Uncertain;
    hide EntryNeeded;
    hide IsAffected;
    hide Direct;
    if NoRoute(c, paths, a) {
      EverythingChosen(c, more, b);
      hide Spared;
      assert forall e :: e in c.entries ==> Chosen(c, paths, a, e);
      assert (forall e :: Chosen(c, paths, a, e) ==> Chosen(c, more, b, e)) <==> (forall e :: e in c.entries ==> Chosen(c, more, b, e));
    } else {
      hide Spared;
    }
  }

  /** A change with owners selects everything exactly when it is uncertain, needs nothing, or spares nothing. */
  lemma {:induction false} EverythingChosen(c: Config, paths: set<Id>, a: set<Id>)
    requires Direct(c, paths) != {}
    ensures (forall e :: e in c.entries ==> Chosen(c, paths, a, e)) <==>
              Uncertain(c, paths, a) || !(exists e :: EntryNeeded(c, paths, a, e)) || !exists e :: Spared(c, paths, a, e)
  {
    hide Uncertain;
    hide EntryNeeded;
    hide Direct;
    forall e | e in c.entries && !Uncertain(c, paths, a) && !NoRoute(c, paths, a)
      ensures Chosen(c, paths, a, e) <==> !Spared(c, paths, a, e)
    {
    }
    if e :| !Uncertain(c, paths, a) && (exists x :: EntryNeeded(c, paths, a, x)) && Spared(c, paths, a, e) {
      assert !Chosen(c, paths, a, e);
    }
  }

  /** What a change needs, and what makes it uncertain, only grows with it. */
  lemma {:induction false} NeedsGrow(c: Config, paths: set<Id>, more: set<Id>, a: set<Id>, b: set<Id>)
    requires paths <= more && IsAffected(c.tasks, Direct(c, paths), a) && IsAffected(c.tasks, Direct(c, more), b)
    ensures Direct(c, paths) <= Direct(c, more) && (Uncertain(c, paths, a) ==> Uncertain(c, more, b))
    ensures forall e :: EntryNeeded(c, paths, a, e) ==> EntryNeeded(c, more, b, e)
  {
    AffectedGrows(c.tasks, Direct(c, paths), Direct(c, more), a, b);
    forall r | RuleApplies(c, paths, r)
      ensures RuleApplies(c, more, r)
    {
    }
    forall m | ModuleNeeded(c, paths, m)
      ensures ModuleNeeded(c, more, m)
    {
      var r :| RuleApplies(c, paths, r) && m in c.rules[r];
      assert RuleApplies(c, more, r);
    }
    hide RuleApplies;
    hide ModuleNeeded;
    hide Unresolved;
    hide EntriesOf;
    forall k | CheckNeeded(c, a, k)
      ensures CheckNeeded(c, b, k)
    {
    }
    hide CheckNeeded;
  }

  /**
   Fail-closed: unless everything is selected, every changed path is accounted for, every
   check of every affected task has a most specific mapping, and all entries of that mapping,
   of the mandatory modules and of the baseline are selected.
   */
  lemma {:induction false} SelectionIsFailClosed(c: Config, paths: set<Id>, a: set<Id>)
    requires ConfigOk(c) && IsAffected(c.tasks, Direct(c, paths), a)
    requires exists e :: e in c.entries && !Chosen(c, paths, a, e)
    ensures c.current && forall p :: p in paths ==> c.owners(p) != {} || c.classes(p) != {} || CriticalPath(c, p)
    ensures forall t, k :: t in a && k in c.tasks[t].checks ==> MappingChosen(c, paths, a, k)
    ensures forall m :: ModuleNeeded(c, paths, m) ==>
              c.moduleEntries(m) != {} && forall e :: e in c.moduleEntries(m) ==> Chosen(c, paths, a, e)
    ensures forall e :: e in c.baseline ==> Chosen(c, paths, a, e)
    ensures Direct(c, paths) != {} ==> exists e :: EntryNeeded(c, paths, a, e)
  {
    hide MappingChosen;
    forall t, k | t in a && k in c.tasks[t].checks
      ensures MappingChosen(c, paths, a, k)
    {
      assert CheckNeeded(c, a, k);
      CheckIsMapped(c, paths, a, k);
    }
    hide CheckNeeded;
    hide ModuleNeeded;
    hide EntriesOf;
    forall p | p in paths
      ensures !Unresolved(c, p)
    {
    }
  }

  /** The check is mapped by one most specific name, and all that this name stands for is selected. */
  ghost predicate MappingChosen(c: Config, paths: set<Id>, a: set<Id>, k: string) {
    exists name :: MostSpecific(c.domains, c.aliases, Normalized(k), name)
                   && Contribution(c.domains, c.aliases, name) != {}
                   && forall e :: e in Contribution(c.domains, c.aliases, name) ==> Chosen(c, paths, a, e)
  }

  lemma {:induction false} CheckIsMapped(c: Config, paths: set<Id>, a: set<Id>, k: string)
    requires ConfigOk(c) && CheckNeeded(c, a, k) && !Uncertain(c, paths, a)
    ensures MappingChosen(c, paths, a, k)
  {
    var ids := EntriesOf(c.domains, c.aliases, k);
    assert ids != {};
    MappingIsOfOneName(c.domains, c.aliases, Normalized(k), ids);
    EntriesAreOfDomains(c.domains, c.aliases, k, Elems(c.entries));
    var e :| e in ids;
    var name :| MostSpecific(c.domains, c.aliases, Normalized(k), name) && e in Contribution(c.domains, c.aliases, name);
    hide CheckNeeded;
    hide Uncertain;
    forall e | e in Contribution(c.domains, c.aliases, name)
      ensures Chosen(c, paths, a, e)
    {
      assert e in CheckEntries(c, k);
      assert EntryNeeded(c, paths, a, e);
    }
  }
}
