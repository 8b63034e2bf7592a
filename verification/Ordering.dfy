/**
 Sorted listings of finite sets of identifiers.

 Envelope identifiers, inner hashes, actors and digests are fixed-length byte strings
 (or their hex spelling); such strings compare exactly like the natural numbers they
 spell, so an identifier is a natural number here and `sorted` is numeric.
 */
module Ordering {

  type Id = nat

  datatype Option<+T> = None | Some(value: T)

  datatype Result<+T, +E> = Ok(value: T) | Err(error: E)

  function Flatten<T>(parts: seq<seq<T>>): seq<T> {
    if parts == [] then [] else Flatten(parts[..|parts| - 1]) + parts[|parts| - 1]
  }

  /** The elements of a sequence. */
  function Elems<T(==)>(s: seq<T>): set<T> {
    set x | x in s
  }

  predicate Distinct<T(==)>(s: seq<T>) {
    forall i, j :: 0 <= i < j < |s| ==> s[i] != s[j]
  }

  lemma {:induction false} DistinctSize<T>(s: seq<T>)
    ensures |Elems(s)| <= |s|
    ensures Distinct(s) ==> |Elems(s)| == |s|
  {
    if s == [] {
    } else {
      DistinctSize(s[1..]);
      assert Elems(s) == {s[0]} + Elems(s[1..]);
      if Distinct(s) {
        assert s[0] !in s[1..];
      }
    }
  }

  lemma {:induction false} DistinctFromSize<T>(s: seq<T>)
    requires |Elems(s)| == |s|
    ensures Distinct(s)
  {
    if s == [] {
    } else {
      DistinctSize(s[1..]);
      assert Elems(s) == {s[0]} + Elems(s[1..]);
      assert s[0] !in Elems(s[1..]);
      DistinctFromSize(s[1..]);
    }
  }

  /** Pigeonhole: distinct members of a set are no more than the set has. */
  lemma {:induction false} DistinctFits<T>(s: seq<T>, universe: set<T>)
    requires Distinct(s) && forall x :: x in s ==> x in universe
    ensures |s| <= |universe|
  {
    DistinctSize(s);
    SubsetSize(Elems(s), universe);
  }

  lemma {:induction false} SubsetSize<T>(a: set<T>, b: set<T>)
    requires a <= b
    ensures |a| <= |b|
    ensures a != b ==> |a| < |b|
  {
    var d := b - a;
    assert b == a + d;
    if d == {} {
      assert a == b;
    }
  }

  predicate StrictlySorted(s: seq<Id>) {
    forall i, j :: 0 <= i < j < |s| ==> s[i] < s[j]
  }

  lemma {:induction false} LeastExists(s: set<Id>) returns (m: Id)
    requires s != {}
    ensures m in s && forall y :: y in s ==> m <= y
  {
    var x :| x in s;
    if s == {x} {
      m := x;
    } else {
      var rest := s - {x};
      assert s == rest + {x};
      assert rest != {};
      var n := LeastExists(rest);
      m := if x < n then x else n;
    }
  }

  function Least(s: set<Id>): (m: Id)
    requires s != {}
    ensures m in s && forall y :: y in s ==> m <= y
  {
    assert exists m :: m in s && forall y :: y in s ==> m <= y by { var m := LeastExists(s); }
    var m :| m in s && forall y :: y in s ==> m <= y;
    m
  }

  lemma {:induction false} LeastAndRest(s: set<Id>)
    requires s != {}
    ensures var m, rest := Least(s), s - {Least(s)};
            s == rest + {m} && |rest| + 1 == |s| && forall x :: x in rest ==> m < x
  {
  }

  /** Python's `sorted(set)`. */
  function Sorted(s: set<Id>): (r: seq<Id>)
    ensures StrictlySorted(r) && |r| == |s|
    ensures forall x :: x in r <==> x in s
    decreases |s|
  {
    if s == {} then [] else
      LeastAndRest(s);
      [Least(s)] + Sorted(s - {Least(s)})
  }

  /** A sorted listing is determined by its elements. */
  lemma {:induction false} SortedUnique(a: seq<Id>, b: seq<Id>)
    requires StrictlySorted(a) && StrictlySorted(b)
    requires forall x :: x in a <==> x in b
    ensures a == b
  {
    DistinctSize(a);
    DistinctSize(b);
    assert Elems(a) == Elems(b);
    if a == [] {
    } else {
      assert a[0] in b;
      assert b[0] in a;
      assert a[0] == b[0];
      forall x
        ensures x in a[1..] <==> x in b[1..]
      {
        assert x in a <==> x == a[0] || x in a[1..];
        assert x in b <==> x == b[0] || x in b[1..];
      }
      SortedUnique(a[1..], b[1..]);
    }
  }
}
