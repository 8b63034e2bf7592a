/**
 The depth-first closure walk that `core_request`, `_collect`, `collect_dependencies`
 and `_replay_request` each spell out as a nested `visit`, over "key -> parents" graphs.

 `Walk` is the specification: the stack of open visits, the finished order and the keys
 still to visit are values. `Walker` is the recursive procedure the sources run, with the
 sets it updates in place. The lemmas say when a walk succeeds, what its order is, that a
 failure names a real defect, and that the outcome depends only on the part of the graph
 that the walk visits.
 */
module ClosureWalk {
  import opened Ordering

  /** Parents of each known key, in visiting order; a key outside the map is unknown. */
  type Graph<K> = map<K, seq<K>>

  datatype Outcome<+K> =
    | Done(order: seq<K>)
    | Missing(at: K)
    | Cycle(at: K)
    | OverLimit

  function Walk<K(==)>(g: Graph<K>, limit: nat, stack: seq<K>, done: seq<K>, todo: seq<K>): (r: Outcome<K>)
    ensures r.Done? ==> done <= r.order && forall x :: x in todo ==> x in r.order
    ensures r.Done? && |stack| + |done| <= limit ==> |stack| + |r.order| <= limit
    decreases g.Keys - Elems(stack), |todo|
  {
    if todo == [] then Done(done)
    else
      var x := todo[0];
      assert todo == [x] + todo[1..];
      if x !in g then Missing(x)
      else if x in stack then Cycle(x)
      else if x in done then Walk(g, limit, stack, done, todo[1..])
      else if |stack| + |done| >= limit then OverLimit
      else
        assert x in g.Keys - Elems(stack) && x !in g.Keys - Elems(stack + [x]);
        match Walk(g, limit, stack + [x], done, g[x])
        case Done(d) =>
          assert (d + [x])[|d|] == x;
          Walk(g, limit, stack, d + [x], todo[1..])
        case e => e
  }

  /** Every listed key is known and comes after all of its parents; no key is listed twice. */
  ghost predicate Topological<K>(g: Graph<K>, order: seq<K>) {
    && Distinct(order)
    && (forall i :: 0 <= i < |order| ==> order[i] in g)
    && (forall i, c :: 0 <= i < |order| && c in g[order[i]] ==> c in order[..i])
  }

  /** Parents of known members are members. */
  ghost predicate Closed<K>(g: Graph<K>, s: set<K>) {
    forall x, c :: x in s && x in g && c in g[x] ==> c in s
  }

  ghost predicate IsPath<K>(g: Graph<K>, p: seq<K>) {
    && p != []
    && forall i :: 0 <= i < |p| - 1 ==> p[i] in g && p[i + 1] in g[p[i]]
  }

  /** `b` is a proper ancestor of `a`. */
  ghost predicate Reaches<K(!new)>(g: Graph<K>, a: K, b: K) {
    exists p :: IsPath(g, p) && |p| >= 2 && p[0] == a && p[|p| - 1] == b
  }

  ghost predicate Apart<K>(a: seq<K>, b: seq<K>) {
    Distinct(a) && Distinct(b) && forall x :: x in a ==> x !in b
  }

  lemma {:induction false} ApartFits<K>(a: seq<K>, b: seq<K>, s: set<K>)
    requires Apart(a, b) && (forall x :: x in a ==> x in s) && (forall x :: x in b ==> x in s)
    ensures |a| + |b| <= |s|
  {
    DistinctSize(a);
    DistinctSize(b);
    SubsetSize(Elems(a) + Elems(b), s);
  }

  // ---------------------------------------------------------------- successful walks

  lemma {:induction false} WalkTopological<K>(g: Graph<K>, limit: nat, stack: seq<K>, done: seq<K>, todo: seq<K>)
    requires Walk(g, limit, stack, done, todo).Done?
    requires Topological(g, done) && forall x :: x in stack ==> x !in done
    ensures var order := Walk(g, limit, stack, done, todo).order;
            Topological(g, order) && forall x :: x in stack ==> x !in order
    decreases g.Keys - Elems(stack), |todo|
  {
    if todo != [] {
      var x := todo[0];
      if x in done {
        WalkTopological(g, limit, stack, done, todo[1..]);
      } else {
        assert x in g.Keys - Elems(stack) && x !in g.Keys - Elems(stack + [x]);
        var d := Walk(g, limit, stack + [x], done, g[x]).order;
        WalkTopological(g, limit, stack + [x], done, g[x]);
        assert Topological(g, d + [x]) by {
          assert x in stack + [x];
          assert (d + [x])[..|d|] == d;
          assert forall i :: 0 <= i < |d| ==> (d + [x])[..i] == d[..i];
        }
        assert forall y :: y in stack ==> y in stack + [x];
        WalkTopological(g, limit, stack, d + [x], todo[1..]);
      }
    }
  }

  /** The walk stays inside every closed set that holds what it starts from. */
  lemma {:induction false} WalkWithin<K>(g: Graph<K>, limit: nat, stack: seq<K>, done: seq<K>, todo: seq<K>, s: set<K>)
    requires Walk(g, limit, stack, done, todo).Done?
    requires Closed(g, s) && (forall x :: x in done ==> x in s) && (forall x :: x in todo ==> x in s)
    ensures forall x :: x in Walk(g, limit, stack, done, todo).order ==> x in s
    decreases g.Keys - Elems(stack), |todo|
  {
    if todo != [] {
      var x := todo[0];
      if x in done {
        WalkWithin(g, limit, stack, done, todo[1..], s);
      } else {
        assert x in g.Keys - Elems(stack) && x !in g.Keys - Elems(stack + [x]);
        WalkWithin(g, limit, stack + [x], done, g[x], s);
        WalkWithin(g, limit, stack, Walk(g, limit, stack + [x], done, g[x]).order + [x], todo[1..], s);
      }
    }
  }

  /** A topological listing that holds the starting keys and fits the limit makes the walk succeed. */
  lemma {:induction false} WalkSucceeds<K>(g: Graph<K>, limit: nat, stack: seq<K>, done: seq<K>, todo: seq<K>, listing: seq<K>, k: nat)
    requires Topological(g, listing) && |listing| <= limit && k <= |listing|
    requires forall x :: x in todo ==> x in listing[..k]
    requires forall x :: x in stack ==> x in listing[k..]
    requires forall x :: x in done ==> x in listing
    requires Apart(stack, done)
    ensures Walk(g, limit, stack, done, todo).Done?
    decreases g.Keys - Elems(stack), |todo|
  {
    if todo != [] {
      var x := todo[0];
      assert x in listing[..k];
      var j :| 0 <= j < k && listing[j] == x;
      assert x !in listing[k..];
      if x in done {
        WalkSucceeds(g, limit, stack, done, todo[1..], listing, k);
      } else {
        ApartFits(stack, done + [x], Elems(listing));
        DistinctSize(listing);
        assert x in g.Keys - Elems(stack) && x !in g.Keys - Elems(stack + [x]);
        assert forall y :: y in stack + [x] ==> y in listing[j..];
        WalkSucceeds(g, limit, stack + [x], done, g[x], listing, j);
        var d := Walk(g, limit, stack + [x], done, g[x]).order;
        WalkKeepsDistinct(g, limit, stack + [x], done, g[x]);
        WalkWithin(g, limit, stack + [x], done, g[x], Elems(listing));
        WalkSucceeds(g, limit, stack, d + [x], todo[1..], listing, k);
      }
    }
  }

  lemma {:induction false} WalkKeepsDistinct<K>(g: Graph<K>, limit: nat, stack: seq<K>, done: seq<K>, todo: seq<K>)
    requires Walk(g, limit, stack, done, todo).Done? && Apart(stack, done)
    ensures Apart(stack, Walk(g, limit, stack, done, todo).order)
    decreases g.Keys - Elems(stack), |todo|
  {
    if todo != [] {
      var x := todo[0];
      if x in done {
        WalkKeepsDistinct(g, limit, stack, done, todo[1..]);
      } else {
        assert x in g.Keys - Elems(stack) && x !in g.Keys - Elems(stack + [x]);
        WalkKeepsDistinct(g, limit, stack + [x], done, g[x]);
        var d := Walk(g, limit, stack + [x], done, g[x]).order;
        WalkKeepsDistinct(g, limit, stack, d + [x], todo[1..]);
      }
    }
  }

  /** The order depends only on the keys it lists: any graph that agrees there gives the same order. */
  lemma {:induction false} WalkAgrees<K>(g: Graph<K>, limit: nat, g': Graph<K>, limit': nat, stack: seq<K>, done: seq<K>, todo: seq<K>)
    requires Walk(g, limit, stack, done, todo).Done?
    requires forall x :: x in Walk(g, limit, stack, done, todo).order ==> x in g && x in g' && (x in done || g'[x] == g[x])
    requires |stack| + |Walk(g, limit, stack, done, todo).order| <= limit'
    ensures Walk(g', limit', stack, done, todo) == Walk(g, limit, stack, done, todo)
    decreases g.Keys - Elems(stack), |todo|
  {
    if todo != [] {
      var x := todo[0];
      if x in done {
        WalkAgrees(g, limit, g', limit', stack, done, todo[1..]);
      } else {
        assert x in g.Keys - Elems(stack) && x !in g.Keys - Elems(stack + [x]);
        var d := Walk(g, limit, stack + [x], done, g[x]).order;
        var order := Walk(g, limit, stack, d + [x], todo[1..]).order;
        assert d + [x] <= order;
        assert forall y :: y in d ==> y in d + [x];
        assert forall y :: y in d + [x] ==> y in order;
        assert (d + [x])[|d|] == x;
        WalkAgrees(g, limit, g', limit', stack + [x], done, g[x]);
        WalkAgrees(g, limit, g', limit', stack, d + [x], todo[1..]);
      }
    }
  }

  // ---------------------------------------------------------------- failing walks

  lemma {:induction false} PathExtends<K>(g: Graph<K>, p: seq<K>, x: K)
    requires IsPath(g, p) && p[|p| - 1] in g && x in g[p[|p| - 1]]
    ensures IsPath(g, p + [x])
  {
    var q := p + [x];
    assert forall i :: 0 <= i < |p| ==> q[i] == p[i];
  }

  /** A missing-key or cycle verdict comes with the path that leads to it. */
  lemma {:induction false} WalkBlames<K>(g: Graph<K>, limit: nat, stack: seq<K>, done: seq<K>, todo: seq<K>) returns (p: seq<K>)
    requires Walk(g, limit, stack, done, todo).Missing? || Walk(g, limit, stack, done, todo).Cycle?
    requires stack != [] ==> IsPath(g, stack) && stack[|stack| - 1] in g
                             && forall c :: c in todo ==> c in g[stack[|stack| - 1]]
    ensures IsPath(g, p) && stack < p && (stack == [] ==> p[0] in todo)
    ensures var r := Walk(g, limit, stack, done, todo);
            p[|p| - 1] == r.at && (if r.Missing? then r.at !in g else r.at in p[..|p| - 1])
    decreases g.Keys - Elems(stack), |todo|
  {
    var x := todo[0];
    assert x in todo && forall c :: c in todo[1..] ==> c in todo;
    if stack != [] {
      PathExtends(g, stack, x);
    }
    if x !in g || x in stack {
      p := stack + [x];
      assert p[..|p| - 1] == stack;
    } else if x in done {
      p := WalkBlames(g, limit, stack, done, todo[1..]);
    } else {
      assert x in g.Keys - Elems(stack) && x !in g.Keys - Elems(stack + [x]);
      var r := Walk(g, limit, stack + [x], done, g[x]);
      if r.Done? {
        p := WalkBlames(g, limit, stack, r.order + [x], todo[1..]);
      } else {
        p := WalkBlames(g, limit, stack + [x], done, g[x]);
        assert p[|stack|] == x && p[..|stack|] == stack;
      }
    }
  }

  /** An over-limit verdict means that every closed set around the start is larger than the limit. */
  lemma {:induction false} WalkOverLimit<K>(g: Graph<K>, limit: nat, stack: seq<K>, done: seq<K>, todo: seq<K>, s: set<K>)
    requires Walk(g, limit, stack, done, todo).OverLimit?
    requires Apart(stack, done) && Closed(g, s)
    requires forall x :: x in done + todo ==> x in s
    requires forall x :: x in stack ==> x in s
    ensures |s| > limit
    decreases g.Keys - Elems(stack), |todo|
  {
    var x := todo[0];
    if x in done {
      WalkOverLimit(g, limit, stack, done, todo[1..], s);
    } else {
      if |stack| + |done| >= limit {
        ApartFits(stack, done + [x], s);
      } else {
        assert x in g.Keys - Elems(stack) && x !in g.Keys - Elems(stack + [x]);
        var r := Walk(g, limit, stack + [x], done, g[x]);
        if r.Done? {
          WalkKeepsDistinct(g, limit, stack + [x], done, g[x]);
          WalkWithin(g, limit, stack + [x], done, g[x], s);
          WalkOverLimit(g, limit, stack, r.order + [x], todo[1..], s);
        } else {
          WalkOverLimit(g, limit, stack + [x], done, g[x], s);
        }
      }
    }
  }

  /** With room for every known key the limit is never met. */
  lemma {:induction false} WalkHasRoom<K>(g: Graph<K>, limit: nat, stack: seq<K>, done: seq<K>, todo: seq<K>)
    requires |g| <= limit && Apart(stack, done)
    requires forall x :: x in stack + done ==> x in g
    ensures !Walk(g, limit, stack, done, todo).OverLimit?
    ensures var r := Walk(g, limit, stack, done, todo);
            r.Done? ==> Apart(stack, r.order) && forall x :: x in r.order ==> x in g
    decreases g.Keys - Elems(stack), |todo|
  {
    if todo != [] && todo[0] in g && todo[0] !in stack {
      var x := todo[0];
      if x in done {
        WalkHasRoom(g, limit, stack, done, todo[1..]);
      } else {
        assert forall y :: y in stack ==> y in stack + done;
        assert forall y :: y in done ==> y in stack + done;
        ApartFits(stack, done + [x], g.Keys);
        assert x in g.Keys - Elems(stack) && x !in g.Keys - Elems(stack + [x]);
        ApartMoves(stack, done, x);
        WalkHasRoom(g, limit, stack + [x], done, g[x]);
        var r := Walk(g, limit, stack + [x], done, g[x]);
        if r.Done? {
          ApartMoves(stack, r.order, x);
          WalkHasRoom(g, limit, stack, r.order + [x], todo[1..]);
        }
      }
    }
  }

  // ---------------------------------------------------------------- ancestry along a topological listing

  /** A path goes strictly down a topological listing. */
  lemma {:induction false} PathDescends<K>(g: Graph<K>, order: seq<K>, i: nat, p: seq<K>)
    requires Topological(g, order) && i < |order|
    requires IsPath(g, p) && |p| >= 2 && p[0] == order[i]
    ensures p[|p| - 1] in order[..i]
  {
    assert p[1] in order[..i];
    if |p| > 2 {
      var j :| 0 <= j < i && order[j] == p[1];
      assert IsPath(g, p[1..]) by {
        assert forall k :: 0 <= k < |p| - 1 ==> p[1..][k] == p[k + 1];
      }
      PathDescends(g, order, j, p[1..]);
      assert p[1..][|p| - 2] == p[|p| - 1];
    }
  }

  lemma {:induction false} TopologicalAppend<K>(g: Graph<K>, order: seq<K>, x: K, parents: seq<K>)
    requires Topological(g, order) && x !in g && forall c :: c in parents ==> c in order
    ensures Topological(g[x := parents], order + [x])
  {
    var all := order + [x];
    assert all[..|order|] == order;
    forall i, c | 0 <= i < |all| && c in g[x := parents][all[i]]
      ensures c in all[..i]
    {
      if i < |order| {
        assert all[i] == order[i] && all[..i] == order[..i];
      }
    }
  }

  lemma {:induction false} ReachesFromKnown<K(!new)>(g: Graph<K>, a: K, b: K)
    requires Reaches(g, a, b)
    ensures a in g
  {
    var p :| IsPath(g, p) && |p| >= 2 && p[0] == a && p[|p| - 1] == b;
    assert p[0] in g;
  }

  /** So a listed key is no ancestor of itself. */
  lemma {:induction false} TopologicalAcyclic<K(!new)>(g: Graph<K>, order: seq<K>, x: K)
    requires Topological(g, order) && x in order
    ensures !Reaches(g, x, x)
  {
    if Reaches(g, x, x) {
      var p :| IsPath(g, p) && |p| >= 2 && p[0] == x && p[|p| - 1] == x;
      var i :| 0 <= i < |order| && order[i] == x;
      PathDescends(g, order, i, p);
      assert false;
    }
  }

  /** Ancestors stay inside a closed set that holds the parents. */
  lemma {:induction false} ReachesStays<K(!new)>(g: Graph<K>, a: K, b: K, s: set<K>)
    requires Reaches(g, a, b) && Closed(g, s) && a in g && forall c :: c in g[a] ==> c in s
    ensures b in s
  {
    var p :| IsPath(g, p) && |p| >= 2 && p[0] == a && p[|p| - 1] == b;
    for i := 1 to |p| - 1
      invariant p[i] in s
    {
      assert p[i] in g && p[i + 1] in g[p[i]];
    }
  }

  lemma {:induction false} ParentReached<K(!new)>(g: Graph<K>, a: K, b: K)
    requires a in g && b in g[a]
    ensures Reaches(g, a, b)
  {
    var p := [a, b];
    assert IsPath(g, p) && |p| >= 2 && p[0] == a && p[|p| - 1] == b;
  }

  lemma {:induction false} PathReaches<K(!new)>(g: Graph<K>, p: seq<K>, i: nat, j: nat)
    requires IsPath(g, p) && i < j < |p|
    ensures Reaches(g, p[i], p[j])
  {
    var q := p[i..j + 1];
    assert IsPath(g, q) && |q| >= 2 && q[0] == p[i] && q[|q| - 1] == p[j];
  }

  /** Ancestry in a part of a graph is ancestry in the graph, and conversely when the part is closed. */
  lemma {:induction false} SubgraphReaches<K(!new)>(g: Graph<K>, part: Graph<K>, a: K, b: K)
    requires forall x :: x in part ==> x in g && g[x] == part[x]
    ensures Reaches(part, a, b) ==> Reaches(g, a, b)
    ensures a in part && (forall x, c :: x in part && c in part[x] ==> c in part) ==> (Reaches(part, a, b) <==> Reaches(g, a, b))
  {
    if Reaches(part, a, b) {
      var p :| IsPath(part, p) && |p| >= 2 && p[0] == a && p[|p| - 1] == b;
      assert IsPath(g, p);
    }
    if Reaches(g, a, b) && a in part && (forall x, c :: x in part && c in part[x] ==> c in part) {
      var p :| IsPath(g, p) && |p| >= 2 && p[0] == a && p[|p| - 1] == b;
      for i := 0 to |p|
        invariant forall j :: 0 <= j <= i && j < |p| ==> p[j] in part
      {
        if i + 1 < |p| {
          assert p[i] in part && p[i + 1] in g[p[i]];
        }
      }
      assert IsPath(part, p);
    }
  }

  lemma {:induction false} ReachesTransitive<K(!new)>(g: Graph<K>, a: K, b: K, c: K)
    requires Reaches(g, a, b) && Reaches(g, b, c)
    ensures Reaches(g, a, c)
  {
    var p :| IsPath(g, p) && |p| >= 2 && p[0] == a && p[|p| - 1] == b;
    var q :| IsPath(g, q) && |q| >= 2 && q[0] == b && q[|q| - 1] == c;
    var r := p[..|p| - 1] + q;
    assert IsPath(g, r) by {
      forall i | 0 <= i < |r| - 1
        ensures r[i] in g && r[i + 1] in g[r[i]]
      {
        if i < |p| - 1 {
          assert r[i] == p[i];
          assert r[i + 1] == p[i + 1];
        } else {
          var j := i - (|p| - 1);
          assert r[i] == q[j] && r[i + 1] == q[j + 1];
        }
      }
    }
    assert r[0] == p[0] && r[|r| - 1] == q[|q| - 1];
  }

  // ---------------------------------------------------------------- the procedure

  /** Processing one more key first is processing the rest from where it left off. */
  lemma {:induction false} WalkSplits<K>(g: Graph<K>, limit: nat, stack: seq<K>, done: seq<K>, x: K, rest: seq<K>)
    ensures var r := Walk(g, limit, stack, done, [x]);
            Walk(g, limit, stack, done, [x] + rest) ==
            if r.Done? then Walk(g, limit, stack, r.order, rest) else r
  {
    assert ([x] + rest)[1..] == rest;
    assert [x][1..] == [];
  }

  lemma {:induction false} WalkOpens<K>(g: Graph<K>, limit: nat, stack: seq<K>, done: seq<K>, x: K)
    requires x in g && x !in stack && x !in done && |stack| + |done| < limit
    ensures var r := Walk(g, limit, stack + [x], done, g[x]);
            Walk(g, limit, stack, done, [x]) == if r.Done? then Done(r.order + [x]) else r
  {
    assert [x][1..] == [];
  }

  lemma {:induction false} ApartMoves<K>(stack: seq<K>, done: seq<K>, x: K)
    ensures Apart(stack, done) && x !in stack && x !in done ==> Apart(stack + [x], done)
    ensures Apart(stack + [x], done) ==> Apart(stack, done + [x]) && x !in stack
  {
    if Apart(stack + [x], done) {
      assert (stack + [x])[|stack|] == x && x in stack + [x];
      assert forall i :: 0 <= i < |stack| ==> (stack + [x])[i] == stack[i];
      assert forall y :: y in stack ==> y in stack + [x];
    }
  }

  /** `visiting`, `seen` and `ordered` as the nested `visit` procedures update them. */
  class Walker<K(==)> {
    const graph: Graph<K>
    const limit: nat
    var seen: set<K>
    var visiting: set<K>
    var ordered: seq<K>

    constructor (graph: Graph<K>, limit: nat)
      ensures this.graph == graph && this.limit == limit
      ensures Tracks([]) && ordered == []
    {
      this.graph, this.limit := graph, limit;
      seen, visiting, ordered := {}, {}, [];
    }

    ghost predicate Tracks(stack: seq<K>)
      reads this
    {
      visiting == Elems(stack) && seen == Elems(ordered) && Apart(stack, ordered)
    }

    method Visit(x: K, ghost stack: seq<K>) returns (r: Outcome<K>)
      requires Tracks(stack)
      modifies this
      ensures r == Walk(graph, limit, stack, old(ordered), [x])
      ensures r.Done? ==> ordered == r.order && Tracks(stack)
      decreases graph.Keys - Elems(stack), 1
    {
      if x !in graph { return Missing(x); }
      if x in visiting { return Cycle(x); }
      if x in seen { return Done(ordered); }
      DistinctSize(stack);
      DistinctSize(ordered);
      if |visiting| + |seen| >= limit { return OverLimit; }
      visiting := visiting + {x};
      assert x in graph.Keys - Elems(stack) && x !in graph.Keys - Elems(stack + [x]);
      WalkOpens(graph, limit, stack, ordered, x);
      ApartMoves(stack, ordered, x);
      r := VisitAll(graph[x], stack + [x]);
      if r.Done? {
        ApartMoves(stack, ordered, x);
        visiting := visiting - {x};
        seen := seen + {x};
        ordered := ordered + [x];
        r := Done(ordered);
      }
    }

    method VisitAll(todo: seq<K>, ghost stack: seq<K>) returns (r: Outcome<K>)
      requires Tracks(stack)
      modifies this
      ensures r == Walk(graph, limit, stack, old(ordered), todo)
      ensures r.Done? ==> ordered == r.order && Tracks(stack)
      decreases graph.Keys - Elems(stack), 2 + |todo|
    {
      r := Done(ordered);
      for i := 0 to |todo|
        invariant r.Done? && r.order == ordered && Tracks(stack)
        invariant Walk(graph, limit, stack, old(ordered), todo) == Walk(graph, limit, stack, ordered, todo[i..])
      {
        WalkSplits(graph, limit, stack, ordered, todo[i], todo[i + 1..]);
        assert todo[i..] == [todo[i]] + todo[i + 1..];
        r := Visit(todo[i], stack);
        if !r.Done? { return; }
      }
    }
  }
}
