/** `shard_plan` of `harness/advanced_optimization.py`: dealing the cases of one entry onto lanes. */
module Shards {
  import opened Ordering

  // ---------------------------------------------------------------- ranking

  function Insert(key: Id -> Id, x: Id, s: seq<Id>): seq<Id> {
    if s == [] || key(x) < key(s[0]) then [x] + s else [s[0]] + Insert(key, x, s[1..])
  }

  /** `_rank_cases`: a stable sort by the digest of the case. */
  function Ranked(key: Id -> Id, cases: seq<Id>): seq<Id> {
    if cases == [] then [] else Insert(key, cases[|cases| - 1], Ranked(key, cases[..|cases| - 1]))
  }

  ghost predicate SortedBy(key: Id -> Id, s: seq<Id>) {
    forall i, j :: 0 <= i < j < |s| ==> key(s[i]) <= key(s[j])
  }

  lemma {:induction false} InsertSorts(key: Id -> Id, x: Id, s: seq<Id>)
    requires SortedBy(key, s)
    ensures var r := Insert(key, x, s);
            SortedBy(key, r) && forall y :: y in r ==> y == x || y in s
  {
    if s != [] && !(key(x) < key(s[0])) {
      InsertSorts(key, x, s[1..]);
      var t := Insert(key, x, s[1..]);
      forall y | y in t
        ensures key(s[0]) <= key(y)
      {
        assert y in s ==> exists k :: 0 <= k < |s| && s[k] == y;
      }
    }
  }

  lemma {:induction false} InsertAdds(key: Id -> Id, x: Id, s: seq<Id>)
    ensures multiset(Insert(key, x, s)) == multiset{x} + multiset(s)
  {
    if s != [] && !(key(x) < key(s[0])) {
      InsertAdds(key, x, s[1..]);
      assert s == [s[0]] + s[1..];
    }
  }

  lemma {:induction false} RankedSorted(key: Id -> Id, cases: seq<Id>)
    ensures SortedBy(key, Ranked(key, cases))
  {
    if cases != [] {
      RankedSorted(key, cases[..|cases| - 1]);
      InsertSorts(key, cases[|cases| - 1], Ranked(key, cases[..|cases| - 1]));
    }
  }

  /** Ranking reorders the cases and nothing else. */
  lemma {:induction false} RankedPermutes(key: Id -> Id, cases: seq<Id>)
    ensures multiset(Ranked(key, cases)) == multiset(cases) && |Ranked(key, cases)| == |cases|
  {
    hide Insert;
    if cases != [] {
      var n := |cases| - 1;
      RankedPermutes(key, cases[..n]);
      InsertAdds(key, cases[n], Ranked(key, cases[..n]));
      assert cases == cases[..n] + [cases[n]];
    }
    SameSize(Ranked(key, cases), cases);
  }

  /** Where digests differ the ranking is the only sorted order. */
  lemma {:induction false} RankedUnique(key: Id -> Id, cases: seq<Id>, s: seq<Id>)
    requires multiset(s) == multiset(cases) && SortedBy(key, s)
    requires InjectiveOn(key, Elems(cases))
    ensures s == Ranked(key, cases)
  {
    RankedPermutes(key, cases);
    RankedSorted(key, cases);
    forall x | x in s
      ensures x in Elems(cases)
    {
      assert x in multiset(s);
    }
    SortedTwice(key, Elems(cases), s, Ranked(key, cases));
  }

  ghost predicate InjectiveOn(key: Id -> Id, all: set<Id>) {
    forall x, y :: x in all && y in all && key(x) == key(y) ==> x == y
  }

  lemma {:induction false} SortedTwice(key: Id -> Id, all: set<Id>, a: seq<Id>, b: seq<Id>)
    requires multiset(a) == multiset(b) && SortedBy(key, a) && SortedBy(key, b)
    requires InjectiveOn(key, all) && forall x :: x in a ==> x in all
    ensures a == b
  {
    SameSize(a, b);
    if a != [] {
      LeastIsFirst(key, all, a, b);
      hide InjectiveOn;
      RestsAgree(a, b);
      assert SortedBy(key, a[1..]) && SortedBy(key, b[1..]);
      hide SortedBy;
      SortedTwice(key, all, a[1..], b[1..]);
      assert a == [a[0]] + a[1..] && b == [b[0]] + b[1..];
    }
  }

  lemma {:induction false} LeastIsFirst(key: Id -> Id, all: set<Id>, a: seq<Id>, b: seq<Id>)
    requires multiset(a) == multiset(b) && SortedBy(key, a) && SortedBy(key, b) && a != [] && b != []
    requires InjectiveOn(key, all) && forall x :: x in a ==> x in all
    ensures a[0] == b[0]
  {
    assert a[0] in multiset(a) && b[0] in multiset(b);
    assert a[0] in multiset(b) && b[0] in multiset(a);
    var i :| 0 <= i < |b| && b[i] == a[0];
    var j :| 0 <= j < |a| && a[j] == b[0];
    assert key(b[0]) <= key(b[i]) && key(a[0]) <= key(a[j]);
  }

  lemma {:induction false} RestsAgree(a: seq<Id>, b: seq<Id>)
    requires multiset(a) == multiset(b) && a != [] && b != [] && a[0] == b[0]
    ensures multiset(a[1..]) == multiset(b[1..])
  {
    assert a == [a[0]] + a[1..] && b == [b[0]] + b[1..];
    assert multiset(a) == multiset{a[0]} + multiset(a[1..]);
    assert multiset(b) == multiset{b[0]} + multiset(b[1..]);
    assert multiset(a[1..]) == multiset(a) - multiset{a[0]};
    assert multiset(b[1..]) == multiset(b) - multiset{b[0]};
  }

  lemma {:induction false} SameSize(a: seq<Id>, b: seq<Id>)
    ensures multiset(a) == multiset(b) ==> |a| == |b|
  {
    assert |multiset(a)| == |a| && |multiset(b)| == |b|;
  }

  // ---------------------------------------------------------------- dealing round robin

  ghost function Dealt(ranked: seq<Id>, n: nat): (buckets: seq<seq<Id>>)
    requires n > 0
    ensures |buckets| == n
  {
    if ranked == [] then seq(n, _ => [])
    else
      var m := |ranked| - 1;
      var before := Dealt(ranked[..m], n);
      before[m % n := before[m % n] + [ranked[m]]]
  }

  lemma {:induction false} FlattenGrows(buckets: seq<seq<Id>>, b: nat, x: Id)
    requires b < |buckets|
    ensures multiset(Flatten(buckets[b := buckets[b] + [x]])) == multiset(Flatten(buckets)) + multiset{x}
  {
    var more := buckets[b := buckets[b] + [x]];
    var n := |buckets| - 1;
    if b == n {
      assert more[..n] == buckets[..n];
      assert Flatten(more) == Flatten(buckets) + [x];
    } else {
      FlattenGrows(buckets[..n], b, x);
      assert more[..n] == buckets[..n][b := buckets[b] + [x]];
    }
  }

  lemma {:induction false} FlattenEmpty(buckets: seq<seq<Id>>)
    requires forall b :: 0 <= b < |buckets| ==> buckets[b] == []
    ensures Flatten(buckets) == []
  {
    if buckets != [] {
      FlattenEmpty(buckets[..|buckets| - 1]);
    }
  }

  /** Nothing is lost, nothing doubled. */
  lemma {:induction false} DealtPartitions(ranked: seq<Id>, n: nat)
    requires n > 0
    ensures multiset(Flatten(Dealt(ranked, n))) == multiset(ranked)
  {
    if ranked == [] {
      FlattenEmpty(Dealt(ranked, n));
    } else {
      var m := |ranked| - 1;
      DealtPartitions(ranked[..m], n);
      FlattenGrows(Dealt(ranked[..m], n), m % n, ranked[m]);
      assert ranked == ranked[..m] + [ranked[m]];
    }
  }

  /** Every bucket holds `full` cases, and the first `extra` hold one more, where `full * n + extra` cases were dealt. */
  lemma {:induction false} DealtSizes(ranked: seq<Id>, n: nat, b: nat)
    requires b < n
    ensures |Dealt(ranked, n)[b]| == |ranked| / n + if b < |ranked| % n then 1 else 0
  {
    DealtShare(ranked, n, b);
    hide Dealt;
  }

  ghost function Share(m: nat, n: nat, b: nat): nat
    requires n > 0
  {
    m / n + if b < m % n then 1 else 0
  }

  lemma {:induction false} DealtShare(ranked: seq<Id>, n: nat, b: nat)
    requires b < n
    ensures |Dealt(ranked, n)[b]| == Share(|ranked|, n, b)
  {
    if ranked == [] {
      assert Share(0, n, b) == 0;
    } else {
      var m := |ranked| - 1;
      DealtShare(ranked[..m], n, b);
      ShareGrows(m, n, b);
      hide Share;
    }
  }

  lemma {:induction false} ShareGrows(m: nat, n: nat, b: nat)
    requires b < n
    ensures Share(m + 1, n, b) == Share(m, n, b) + if b == m % n then 1 else 0
  {
    NextDeal(m, n);
  }

  lemma {:induction false} NextDeal(m: nat, n: nat)
    requires n > 0
    ensures if m % n == n - 1 then (m + 1) / n == m / n + 1 && (m + 1) % n == 0
            else (m + 1) / n == m / n && (m + 1) % n == m % n + 1
  {
    var q, r := m / n, m % n;
    assert m == q * n + r;
    if r == n - 1 {
      assert m + 1 == (q + 1) * n + 0;
      Divides(m + 1, n, q + 1, 0);
    } else {
      Divides(m + 1, n, q, r + 1);
    }
  }

  lemma {:induction false} Divides(m: nat, n: nat, q: nat, r: nat)
    requires n > 0 && m == q * n + r && r < n
    ensures m / n == q && m % n == r
  {
    var q', r' := m / n, m % n;
    assert m == q' * n + r';
    assert q * n - q' * n == r' - r;
    if q > q' {
      OneApart(q', q, n);
    } else if q < q' {
      OneApart(q, q', n);
    }
  }

  lemma {:induction false} OneApart(a: nat, b: nat, n: nat)
    requires a < b
    ensures b * n - a * n >= n
  {
    var c := b - 1;
    assert (c + 1) * n == c * n + n;
    if a < c {
      OneApart(a, c, n);
    }
  }

  /** The cases go round: case k is the k / n-th of bucket k % n. */
  lemma {:induction false} DealtRoundRobin(ranked: seq<Id>, n: nat, k: nat)
    requires n > 0 && k < |ranked|
    ensures k / n < |Dealt(ranked, n)[k % n]| && Dealt(ranked, n)[k % n][k / n] == ranked[k]
  {
    var m := |ranked| - 1;
    if k < m {
      DealtRoundRobin(ranked[..m], n, k);
    } else {
      DealtSizes(ranked[..m], n, m % n);
    }
  }

  /** Sizes differ by at most one, and no shard is empty when there are cases enough. */
  lemma {:induction false} DealtIsBalanced(ranked: seq<Id>, n: nat, a: nat, b: nat)
    requires a < n && b < n
    ensures |Dealt(ranked, n)[a]| <= |Dealt(ranked, n)[b]| + 1
    ensures n <= |ranked| ==> |Dealt(ranked, n)[a]| >= 1
  {
    DealtSizes(ranked, n, a);
    DealtSizes(ranked, n, b);
  }

  method Deal(ranked: seq<Id>, n: nat) returns (buckets: seq<seq<Id>>)
    requires n > 0
    ensures buckets == Dealt(ranked, n)
  {
    buckets := seq(n, _ => []);
    assert ranked[..0] == [];
    for k := 0 to |ranked|
      invariant buckets == Dealt(ranked[..k], n)
    {
      assert ranked[..k + 1][..k] == ranked[..k];
      buckets := buckets[k % n := buckets[k % n] + [ranked[k]]];
    }
    assert ranked[..|ranked|] == ranked;
  }
}
