/** `_check_to_entries` of `harness/impact_selection.py`: from a check to the entries of its most specific mapping. */
module CheckNames {
  import opened Ordering

  type Domains = map<string, set<Id>>
  type Aliases = map<string, seq<string>>

  /** `replace('-', '_')`. */
  function Normalized(s: string): (r: string)
    ensures |r| == |s| && '-' !in r
    ensures forall i :: 0 <= i < |s| ==> r[i] == s[i] || (s[i] == '-' && r[i] == '_')
  {
    seq(|s|, i requires 0 <= i < |s| => if s[i] == '-' then '_' else s[i])
  }

  predicate Matches(check: string, name: string) {
    check == name || name + "_" <= check
  }

  /** The entries that an alias stands for: those of its targets that exist. */
  function AliasEntries(domains: Domains, targets: seq<string>): set<Id> {
    if targets == [] then {}
    else
      var last := targets[|targets| - 1];
      AliasEntries(domains, targets[..|targets| - 1]) + if last in domains then domains[last] else {}
  }

  /** The aliases that stand for some entry. */
  ghost function Resolved(domains: Domains, aliases: Aliases): Domains {
    map name | name in aliases && AliasEntries(domains, aliases[name]) != {} :: AliasEntries(domains, aliases[name])
  }

  /** A name that the check may be mapped by, as a domain or as an alias of some entry. */
  ghost predicate Candidate(domains: Domains, aliases: Aliases, check: string, name: string) {
    Matches(check, name) && (name in domains || name in Resolved(domains, aliases))
  }

  function At(m: Domains, name: string): set<Id> {
    if name in m then m[name] else {}
  }

  ghost function Contribution(domains: Domains, aliases: Aliases, name: string): set<Id> {
    At(domains, name) + At(Resolved(domains, aliases), name)
  }

  ghost predicate MostSpecific(domains: Domains, aliases: Aliases, check: string, name: string) {
    Candidate(domains, aliases, check, name) &&
    forall other :: Candidate(domains, aliases, check, other) ==> |other| <= |name|
  }

  /** The entries of a normalized check: those of its most specific candidates. */
  ghost predicate IsMapping(domains: Domains, aliases: Aliases, check: string, ids: set<Id>) {
    forall e :: e in ids <==> exists name :: MostSpecific(domains, aliases, check, name) && e in Contribution(domains, aliases, name)
  }

  /** A name matches the check that it is, and every check that goes on with an underscore after it. */
  lemma {:induction false} MatchesExactly(check: string, name: string)
    ensures Matches(check, name) <==>
              && |name| <= |check| && (forall i :: 0 <= i < |name| ==> check[i] == name[i])
              && (|name| < |check| ==> check[|name|] == '_')
  {
    var longer := name + "_";
    if |name| < |check| {
      assert longer <= check <==> forall i :: 0 <= i < |longer| ==> longer[i] == check[i];
    }
  }

  /** An alias stands for the entries of those of its targets that are domains. */
  lemma {:induction false} AliasStandsFor(domains: Domains, targets: seq<string>, e: Id)
    ensures e in AliasEntries(domains, targets) <==> exists t :: t in targets && t in domains && e in domains[t]
  {
    if targets != [] {
      var n := |targets| - 1;
      AliasStandsFor(domains, targets[..n], e);
      assert targets == targets[..n] + [targets[n]];
    }
  }

  lemma {:induction false} MatchesIsPrefix(check: string, name: string)
    requires Matches(check, name)
    ensures |name| <= |check| && name == check[..|name|]
  {
    if check != name {
      assert check[..|name|] == (name + "_")[..|name|];
    }
  }

  /** Equally specific candidates are one name: a domain and an alias of the same spelling are the only tie. */
  lemma {:induction false} MostSpecificIsOne(domains: Domains, aliases: Aliases, check: string, a: string, b: string)
    requires MostSpecific(domains, aliases, check, a) && MostSpecific(domains, aliases, check, b)
    ensures a == b
  {
    MatchesIsPrefix(check, a);
    MatchesIsPrefix(check, b);
  }

  /** So the mapping is what that one name stands for, and only a check without candidates maps to nothing. */
  lemma {:induction false} MappingIsOfOneName(domains: Domains, aliases: Aliases, check: string, ids: set<Id>)
    requires IsMapping(domains, aliases, check, ids) && forall d :: d in domains ==> domains[d] != {}
    ensures forall name :: MostSpecific(domains, aliases, check, name) ==> ids == Contribution(domains, aliases, name)
    ensures ids == {} <==> forall name :: !Candidate(domains, aliases, check, name)
  {
    forall name | MostSpecific(domains, aliases, check, name)
      ensures ids == Contribution(domains, aliases, name)
    {
      forall e
        ensures e in ids <==> e in Contribution(domains, aliases, name)
      {
        if e in ids {
          var other :| MostSpecific(domains, aliases, check, other) && e in Contribution(domains, aliases, other);
          MostSpecificIsOne(domains, aliases, check, name, other);
        }
      }
    }
    if name :| Candidate(domains, aliases, check, name) {
      var best := BestExists(domains, aliases, check, name);
      assert ids == Contribution(domains, aliases, best);
    }
  }

  lemma {:induction false} BestExists(domains: Domains, aliases: Aliases, check: string, name: string) returns (best: string)
    requires Candidate(domains, aliases, check, name)
    ensures MostSpecific(domains, aliases, check, best)
    decreases |check| - |name|
  {
    MatchesIsPrefix(check, name);
    if other :| Candidate(domains, aliases, check, other) && |other| > |name| {
      MatchesIsPrefix(check, other);
      best := BestExists(domains, aliases, check, other);
    } else {
      best := name;
    }
  }

  lemma {:induction false} MappingIsUnique(domains: Domains, aliases: Aliases, check: string, a: set<Id>, b: set<Id>)
    requires IsMapping(domains, aliases, check, a) && IsMapping(domains, aliases, check, b)
    ensures a == b
  {
    assert forall e :: e in a <==> e in b;
  }

  lemma {:induction false} OneNameMaps(domains: Domains, aliases: Aliases, check: string, name: string)
    requires MostSpecific(domains, aliases, check, name)
    ensures IsMapping(domains, aliases, check, Contribution(domains, aliases, name))
  {
    forall other | MostSpecific(domains, aliases, check, other)
      ensures other == name
    {
      MostSpecificIsOne(domains, aliases, check, other, name);
    }
    hide MostSpecific;
    hide Contribution;
  }

  /** The entries of a check. */
  ghost function EntriesOf(domains: Domains, aliases: Aliases, id: string): (ids: set<Id>)
    ensures IsMapping(domains, aliases, Normalized(id), ids)
  {
    if exists name :: MostSpecific(domains, aliases, Normalized(id), name) then
      var name :| MostSpecific(domains, aliases, Normalized(id), name);
      OneNameMaps(domains, aliases, Normalized(id), name);
      Contribution(domains, aliases, name)
    else {}
  }

  lemma {:induction false} EntriesAreOfDomains(domains: Domains, aliases: Aliases, id: string, all: set<Id>)
    requires forall d :: d in domains ==> domains[d] <= all
    ensures EntriesOf(domains, aliases, id) <= all
  {
    forall name | name in aliases
      ensures AliasEntries(domains, aliases[name]) <= all
    {
      AliasIsOfDomains(domains, aliases[name], all);
    }
    hide MostSpecific;
    hide AliasEntries;
    forall e | e in EntriesOf(domains, aliases, id)
      ensures e in all
    {
      var name :| MostSpecific(domains, aliases, Normalized(id), name) && e in Contribution(domains, aliases, name);
    }
  }

  lemma {:induction false} AliasIsOfDomains(domains: Domains, targets: seq<string>, all: set<Id>)
    requires forall d :: d in domains ==> domains[d] <= all
    ensures AliasEntries(domains, targets) <= all
  {
    if targets != [] {
      AliasIsOfDomains(domains, targets[..|targets| - 1], all);
    }
  }

  // ---------------------------------------------------------------- the loops

  /** Candidates found so far: their names, and for each the entries it brings. */
  datatype Found = Found(size: nat, ids: set<Id>)

  method ResolveAlias(domains: Domains, targets: seq<string>) returns (ids: set<Id>)
    ensures ids == AliasEntries(domains, targets)
  {
    ids := {};
    assert targets[..0] == [];
    for k := 0 to |targets|
      invariant ids == AliasEntries(domains, targets[..k])
    {
      assert targets[..k + 1][..k] == targets[..k];
      if targets[k] in domains {
        ids := ids + domains[targets[k]];
      }
    }
    assert targets[..|targets|] == targets;
  }

  /** Something on the list that is worth no more than a candidate of its size. */
  ghost predicate Brought(domains: Domains, aliases: Aliases, check: string, f: Found) {
    exists name :: Candidate(domains, aliases, check, name) && f.size == |name| && f.ids <= Contribution(domains, aliases, name)
  }

  /** The list holds what the matching ones of `names` bring. */
  ghost predicate Has(m: Domains, check: string, names: set<string>, found: seq<Found>) {
    forall name :: name in names && name in m && Matches(check, name) ==> Found(|name|, m[name]) in found
  }

  ghost predicate OnlyBrought(domains: Domains, aliases: Aliases, check: string, found: seq<Found>) {
    forall f :: f in found ==> Brought(domains, aliases, check, f)
  }

  lemma {:induction false} HasMore(m: Domains, check: string, names: set<string>, found: seq<Found>, name: string)
    requires Has(m, check, names, found)
    ensures Has(m, check, names + {name}, if name in m && Matches(check, name) then found + [Found(|name|, m[name])] else found)
  {
    hide Matches;
  }

  lemma {:induction false} BringsOne(domains: Domains, aliases: Aliases, check: string, found: seq<Found>, name: string)
    requires OnlyBrought(domains, aliases, check, found) && Matches(check, name)
    ensures name in domains ==> OnlyBrought(domains, aliases, check, found + [Found(|name|, domains[name])])
    ensures var r := Resolved(domains, aliases);
            name in r ==> OnlyBrought(domains, aliases, check, found + [Found(|name|, r[name])])
  {
    hide Matches;
    var r := Resolved(domains, aliases);
    assert name in domains ==> Candidate(domains, aliases, check, name) && Brought(domains, aliases, check, Found(|name|, domains[name]));
    assert name in r ==> Candidate(domains, aliases, check, name) && Brought(domains, aliases, check, Found(|name|, r[name]));
    hide Brought;
  }

  lemma {:induction false} HasStays(m: Domains, check: string, names: set<string>, found: seq<Found>, f: Found)
    requires Has(m, check, names, found)
    ensures Has(m, check, names, found + [f])
  {
    hide Matches;
  }

  method FindCandidates(domains: Domains, aliases: Aliases, check: string) returns (found: seq<Found>)
    ensures Has(domains, check, domains.Keys, found) && Has(Resolved(domains, aliases), check, aliases.Keys, found)
    ensures OnlyBrought(domains, aliases, check, found)
  {
    ghost var resolved := Resolved(domains, aliases);
    found := [];
    assert Has(domains, check, {}, found) && Has(resolved, check, {}, found) && OnlyBrought(domains, aliases, check, found);
    hide Has;
    hide OnlyBrought;
    hide AliasEntries;
    hide Matches;
    var rest := domains.Keys;
    assert domains.Keys - rest == {};
    while rest != {}
      invariant rest <= domains.Keys && Has(domains, check, domains.Keys - rest, found) && Has(resolved, check, {}, found)
      invariant OnlyBrought(domains, aliases, check, found)
    {
      var name :| name in rest;
      assert domains.Keys - rest + {name} == domains.Keys - (rest - {name});
      HasMore(domains, check, domains.Keys - rest, found, name);
      if Matches(check, name) {
        BringsOne(domains, aliases, check, found, name);
        HasStays(resolved, check, {}, found, Found(|name|, domains[name]));
        found := found + [Found(|name|, domains[name])];
      }
      rest := rest - {name};
    }
    assert domains.Keys - rest == domains.Keys;
    rest := aliases.Keys;
    assert aliases.Keys - rest == {};
    while rest != {}
      invariant rest <= aliases.Keys && Has(domains, check, domains.Keys, found) && Has(resolved, check, aliases.Keys - rest, found)
      invariant OnlyBrought(domains, aliases, check, found)
    {
      var name :| name in rest;
      assert aliases.Keys - rest + {name} == aliases.Keys - (rest - {name});
      HasMore(resolved, check, aliases.Keys - rest, found, name);
      if Matches(check, name) {
        var ids := ResolveAlias(domains, aliases[name]);
        if ids != {} {
          BringsOne(domains, aliases, check, found, name);
          HasStays(domains, check, domains.Keys, found, Found(|name|, ids));
          found := found + [Found(|name|, ids)];
        }
      }
      rest := rest - {name};
    }
    assert aliases.Keys - rest == aliases.Keys;
  }

  method Largest(found: seq<Found>) returns (best: nat)
    requires found != []
    ensures (forall f :: f in found ==> f.size <= best) && exists f :: f in found && f.size == best
  {
    best := found[0].size;
    for k := 1 to |found|
      invariant forall j :: 0 <= j < k ==> found[j].size <= best
      invariant exists j :: 0 <= j < k && found[j].size == best
    {
      if found[k].size > best {
        best := found[k].size;
      }
    }
  }

  method UniteBest(found: seq<Found>, best: nat) returns (ids: set<Id>)
    ensures Unites(found, best, ids)
  {
    ids := {};
    for k := 0 to |found|
      invariant Unites(found[..k], best, ids)
    {
      assert found[..k + 1] == found[..k] + [found[k]];
      if found[k].size == best {
        ids := ids + found[k].ids;
      }
    }
    assert found[..|found|] == found;
  }

  ghost predicate Unites(found: seq<Found>, best: nat, ids: set<Id>) {
    && (forall f :: f in found && f.size == best ==> f.ids <= ids)
    && forall e :: e in ids ==> exists f :: f in found && f.size == best && e in f.ids
  }

  method CheckToEntries(id: string, domains: Domains, aliases: Aliases) returns (ids: set<Id>)
    ensures ids == EntriesOf(domains, aliases, id)
  {
    hide Has;
    hide OnlyBrought;
    hide Unites;
    hide IsMapping;
    hide Normalized;
    hide Resolved;
    var check := Normalized(id);
    var found := FindCandidates(domains, aliases, check);
    if found == [] {
      NothingFound(domains, aliases, check);
      MappingIsUnique(domains, aliases, check, {}, EntriesOf(domains, aliases, id));
      return {};
    }
    var best := Largest(found);
    ids := UniteBest(found, best);
    UnionIsMapping(domains, aliases, check, found, best, ids);
    MappingIsUnique(domains, aliases, check, ids, EntriesOf(domains, aliases, id));
  }

  lemma {:induction false} NothingFound(domains: Domains, aliases: Aliases, check: string)
    requires Has(domains, check, domains.Keys, []) && Has(Resolved(domains, aliases), check, aliases.Keys, [])
    ensures IsMapping(domains, aliases, check, {})
  {
    hide Matches;
    hide AliasEntries;
    forall name
      ensures !Candidate(domains, aliases, check, name)
    {
    }
    hide Candidate;
  }

  lemma {:induction false} CandidateIsFound(domains: Domains, aliases: Aliases, check: string, found: seq<Found>, best: nat, ids: set<Id>, name: string)
    requires Has(domains, check, domains.Keys, found) && Has(Resolved(domains, aliases), check, aliases.Keys, found)
    requires Candidate(domains, aliases, check, name)
    requires (forall f :: f in found ==> f.size <= best) && Unites(found, best, ids)
    ensures |name| <= best && (|name| == best ==> Contribution(domains, aliases, name) <= ids)
  {
    hide Matches;
    hide AliasEntries;
    var r := Resolved(domains, aliases);
    if name in domains {
      assert Found(|name|, domains[name]) in found;
    }
    if name in r {
      assert name in aliases && Found(|name|, r[name]) in found;
    }
  }

  /** What is united comes from most specific candidates. */
  lemma {:induction false} UnitedIsBest(domains: Domains, aliases: Aliases, check: string, found: seq<Found>, best: nat, ids: set<Id>, e: Id)
    requires OnlyBrought(domains, aliases, check, found) && Unites(found, best, ids) && e in ids
    requires forall name :: Candidate(domains, aliases, check, name) ==> |name| <= best
    ensures exists name :: MostSpecific(domains, aliases, check, name) && e in Contribution(domains, aliases, name)
  {
    hide Candidate;
    hide Contribution;
    var f :| f in found && f.size == best && e in f.ids;
    assert Brought(domains, aliases, check, f);
    var name :| Candidate(domains, aliases, check, name) && f.size == |name| && f.ids <= Contribution(domains, aliases, name);
    assert MostSpecific(domains, aliases, check, name);
  }

  lemma {:induction false} UnionIsMapping(domains: Domains, aliases: Aliases, check: string, found: seq<Found>, best: nat, ids: set<Id>)
    requires Has(domains, check, domains.Keys, found) && Has(Resolved(domains, aliases), check, aliases.Keys, found)
    requires OnlyBrought(domains, aliases, check, found) && Unites(found, best, ids)
    requires (forall f :: f in found ==> f.size <= best) && exists f :: f in found && f.size == best
    ensures IsMapping(domains, aliases, check, ids)
  {
    hide Has;
    hide OnlyBrought;
    hide Unites;
    hide Candidate;
    hide Contribution;
    hide Resolved;
    forall name | Candidate(domains, aliases, check, name)
      ensures |name| <= best && (|name| == best ==> Contribution(domains, aliases, name) <= ids)
    {
      CandidateIsFound(domains, aliases, check, found, best, ids, name);
    }
    BestSize(domains, aliases, check, found, best);
    forall e | e in ids
      ensures exists name :: MostSpecific(domains, aliases, check, name) && e in Contribution(domains, aliases, name)
    {
      UnitedIsBest(domains, aliases, check, found, best, ids, e);
    }
    forall name | MostSpecific(domains, aliases, check, name)
      ensures Contribution(domains, aliases, name) <= ids
    {
    }
    hide MostSpecific;
  }

  lemma {:induction false} BestSize(domains: Domains, aliases: Aliases, check: string, found: seq<Found>, best: nat)
    requires OnlyBrought(domains, aliases, check, found)
    requires exists f :: f in found && f.size == best
    requires forall name :: Candidate(domains, aliases, check, name) ==> |name| <= best
    ensures forall name :: MostSpecific(domains, aliases, check, name) ==> |name| == best
  {
    hide Candidate;
    hide Contribution;
    var f :| f in found && f.size == best;
    assert Brought(domains, aliases, check, f);
  }
}
