/**
 What one application selects from the pool of known envelopes: the traversal, the
 frontier and the per-change causal checks of `_collect` in `product/wp04/application.py`.
 */
module Selection {
  import opened Ordering
  import opened ClosureWalk
  import opened Contracts

  const MAX_INPUTS := 128

  /** The opened pool: changes by envelope and the envelope of each inner hash. */
  datatype Pool = Pool(changes: map<Id, Change>, inners: map<Id, Id>)

  ghost predicate ValidPool(p: Pool) {
    && (forall e :: e in p.changes ==> p.changes[e].inner in p.inners && p.inners[p.changes[e].inner] == e)
    && (forall k :: k in p.inners ==> p.inners[k] in p.changes && p.changes[p.inners[k]].inner == k)
    && (forall a, b :: a in p.changes && b in p.changes && SameSlot(p.changes[a], p.changes[b]) ==> a == b)
  }

  /** What a visit is asked for: an envelope, or a dependency that no known envelope carries. */
  datatype Key = Envelope(id: Id) | Unknown(inner: Id)

  function Link(p: Pool, k: Id): Key {
    if k in p.inners then Envelope(p.inners[k]) else Unknown(k)
  }

  function Links(p: Pool, ks: seq<Id>): seq<Key> {
    seq(|ks|, i requires 0 <= i < |ks| => Link(p, ks[i]))
  }

  function Envelopes(ids: seq<Id>): seq<Key> {
    seq(|ids|, i requires 0 <= i < |ids| => Envelope(ids[i]))
  }

  function PoolGraph(p: Pool): Graph<Key> {
    map e | e in p.changes :: Envelope(e) := Links(p, Sorted(p.changes[e].dependencies))
  }

  function InnerGraph(p: Pool): Graph<Id> {
    map k | k in p.inners && p.inners[k] in p.changes :: Sorted(p.changes[p.inners[k]].dependencies)
  }

  function Select(p: Pool, roots: set<Id>): Outcome<Key> {
    Walk(PoolGraph(p), MAX_INPUTS, [], [], Envelopes(Sorted(roots)))
  }

  function InnerOrder(p: Pool, ids: seq<Id>): seq<Id>
    requires forall e :: e in ids ==> e in p.changes
  {
    seq(|ids|, i requires 0 <= i < |ids| => p.changes[ids[i]].inner)
  }

  /** `ids` is a finished selection. */
  ghost predicate Selected(p: Pool, roots: set<Id>, ids: seq<Id>) {
    && ValidPool(p) && Select(p, roots) == Done(Envelopes(ids))
    && Distinct(ids) && |ids| <= MAX_INPUTS
    && (forall e :: e in ids ==> e in p.changes)
    && (forall e :: e in roots ==> e in ids)
    && ParentsEarlier(p, ids)
  }

  ghost predicate ParentsEarlier(p: Pool, ids: seq<Id>)
    requires forall e :: e in ids ==> e in p.changes
  {
    forall i, k :: 0 <= i < |ids| && k in p.changes[ids[i]].dependencies ==> k in p.inners && p.inners[k] in ids[..i]
  }

  lemma {:induction false} LinkListed(p: Pool, ids: seq<Id>, e: Id, k: Id)
    requires e in p.changes && k in p.changes[e].dependencies
    requires forall c :: c in PoolGraph(p)[Envelope(e)] ==> c in Envelopes(ids)
    ensures k in p.inners && p.inners[k] in ids
  {
    hide Sorted;
    var ks := Sorted(p.changes[e].dependencies);
    assert k in ks;
    var j :| 0 <= j < |ks| && ks[j] == k;
    assert Links(p, ks)[j] == Link(p, k);
    assert Link(p, k) in Envelopes(ids);
  }

  lemma {:induction false} EnvelopesIn(ids: seq<Id>)
    ensures forall e :: Envelope(e) in Envelopes(ids) <==> e in ids
    ensures forall x :: x in Envelopes(ids) ==> x.Envelope? && x.id in ids
  {
    forall e | e in ids
      ensures Envelope(e) in Envelopes(ids)
    {
      var i :| 0 <= i < |ids| && ids[i] == e;
      assert Envelopes(ids)[i] == Envelope(e);
    }
  }

  lemma {:induction false} KeysListed(p: Pool, order: seq<Key>) returns (ids: seq<Id>)
    requires Topological(PoolGraph(p), order)
    ensures order == Envelopes(ids) && Distinct(ids) && forall e :: e in ids ==> e in p.changes
  {
    assert forall i :: 0 <= i < |order| ==> order[i] in PoolGraph(p) && order[i].Envelope? && order[i].id in p.changes;
    ids := seq(|order|, i requires 0 <= i < |order| => order[i].id);
    assert forall i, j :: 0 <= i < j < |ids| ==> order[i] != order[j] && ids[i] != ids[j];
  }

  lemma {:induction false} ParentsListed(p: Pool, ids: seq<Id>, i: nat, k: Id)
    requires Topological(PoolGraph(p), Envelopes(ids)) && i < |ids|
    requires ids[i] in p.changes && k in p.changes[ids[i]].dependencies
    ensures k in p.inners && p.inners[k] in ids[..i]
  {
    assert Envelopes(ids)[..i] == Envelopes(ids[..i]);
    assert Envelopes(ids)[i] == Envelope(ids[i]);
    hide Sorted;
    LinkListed(p, ids[..i], ids[i], k);
  }

  /** A successful traversal lists envelopes, parents first. */
  lemma {:induction false} SelectLists(p: Pool, roots: set<Id>) returns (ids: seq<Id>)
    requires ValidPool(p) && Select(p, roots).Done?
    ensures Selected(p, roots, ids)
  {
    hide Walk;
    hide Sorted;
    hide Topological;
    hide PoolGraph;
    hide ValidPool;
    var todo := Envelopes(Sorted(roots));
    var order := Walk(PoolGraph(p), MAX_INPUTS, [], [], todo).order;
    assert Topological(PoolGraph(p), order) by {
      EmptyTopological(PoolGraph(p));
      WalkTopological(PoolGraph(p), MAX_INPUTS, [], [], todo);
    }
    ids := KeysListed(p, order);
    EnvelopesIn(ids);
    EnvelopesIn(Sorted(roots));
    hide Envelopes;
    forall i, k | 0 <= i < |ids| && k in p.changes[ids[i]].dependencies
      ensures k in p.inners && p.inners[k] in ids[..i]
    {
      ParentsListed(p, ids, i, k);
    }
  }

  lemma {:induction false} EmptyTopological(g: Graph<Key>)
    ensures Topological(g, [])
  {
  }

  /** On inner hashes the same listing is topological. */
  lemma {:induction false} SelectedTopological(p: Pool, roots: set<Id>, ids: seq<Id>)
    requires Selected(p, roots, ids)
    ensures Topological(InnerGraph(p), InnerOrder(p, ids))
  {
    hide Select;
    hide Sorted;
    var g, order := InnerGraph(p), InnerOrder(p, ids);
    forall i, j | 0 <= i < j < |order|
      ensures order[i] != order[j]
    {
      assert ids[i] in ids && ids[j] in ids && ids[i] != ids[j];
    }
    forall i | 0 <= i < |order|
      ensures order[i] in g && g[order[i]] == Sorted(p.changes[ids[i]].dependencies)
    {
      assert ids[i] in ids;
    }
    forall i, c | 0 <= i < |order| && c in g[order[i]]
      ensures c in order[..i]
    {
      assert p.inners[c] in ids[..i];
      var j :| 0 <= j < i && ids[j] == p.inners[c];
      assert order[..i][j] == c;
    }
  }

  lemma {:induction false} InsideClosed(p: Pool, roots: set<Id>, ids: seq<Id>, s: set<Id>, x: Key, c: Key)
    requires Selected(p, roots, ids) && x.Envelope? && x.id in ids && x.id in s && c in PoolGraph(p)[x]
    requires forall e, k :: e in s && e in p.changes && k in p.changes[e].dependencies && k in p.inners ==> p.inners[k] in s
    ensures c.Envelope? && c.id in ids && c.id in s
  {
    hide Select;
    hide Sorted;
    hide ValidPool;
    var ks := Sorted(p.changes[x.id].dependencies);
    var j :| 0 <= j < |ks| && Links(p, ks)[j] == c;
    var i :| 0 <= i < |ids| && ids[i] == x.id;
    assert ks[j] in ks;
    assert ks[j] in p.changes[ids[i]].dependencies;
    assert p.inners[ks[j]] in ids[..i];
  }

  /** The selection is inside every dependency-closed set of envelopes that holds the roots. */
  lemma {:induction false} SelectionIsLeast(p: Pool, roots: set<Id>, ids: seq<Id>, s: set<Id>)
    requires Selected(p, roots, ids) && roots <= s
    requires forall e, k :: e in s && e in p.changes && k in p.changes[e].dependencies && k in p.inners ==> p.inners[k] in s
    ensures forall e :: e in ids ==> e in s
  {
    hide Walk;
    hide Sorted;
    hide ValidPool;
    var g, todo := PoolGraph(p), Envelopes(Sorted(roots));
    EnvelopesIn(ids);
    EnvelopesIn(Sorted(roots));
    var inside := set e | e in ids && e in s :: Envelope(e);
    forall x, c | x in inside && x in g && c in g[x]
      ensures c in inside
    {
      InsideClosed(p, roots, ids, s, x, c);
      assert c == Envelope(c.id);
    }
    hide PoolGraph;
    hide Envelopes;
    forall x | x in todo
      ensures x in inside
    {
      assert x == Envelope(x.id);
    }
    WalkWithin(g, MAX_INPUTS, [], [], todo, inside);
    forall e | e in ids
      ensures e in s
    {
      assert Envelope(e) in inside;
    }
  }

  // ---------------------------------------------------------------- frontier

  function Hashes(p: Pool, ids: seq<Id>): set<Id>
    requires forall e :: e in ids ==> e in p.changes
  {
    set e | e in ids :: p.changes[e].inner
  }

  function DependedOn(p: Pool, ids: seq<Id>): set<Id>
    requires forall e :: e in ids ==> e in p.changes
  {
    set e, k | e in ids && k in p.changes[e].dependencies :: k
  }

  function Heads(p: Pool, ids: seq<Id>): set<Id>
    requires forall e :: e in ids ==> e in p.changes
  {
    Hashes(p, ids) - DependedOn(p, ids)
  }

  /** Every selected change is a head or an ancestor of one. */
  lemma {:induction false} HeadsCover(p: Pool, roots: set<Id>, ids: seq<Id>, i: nat) returns (h: Id)
    requires Selected(p, roots, ids) && i < |ids|
    ensures h in Heads(p, ids)
    ensures var x := p.changes[ids[i]].inner; h == x || Reaches(InnerGraph(p), h, x)
    decreases |ids| - i
  {
    hide Select;
    hide Sorted;
    hide Reaches;
    var x := p.changes[ids[i]].inner;
    assert x in Hashes(p, ids);
    if x in Heads(p, ids) {
      h := x;
    } else {
      var e :| e in ids && x in p.changes[e].dependencies;
      var j :| 0 <= j < |ids| && ids[j] == e;
      assert p.inners[x] == ids[i] && ids[i] in ids[..j];
      assert i < j;
      h := HeadsCover(p, roots, ids, j);
      var y := p.changes[ids[j]].inner;
      ParentReached(InnerGraph(p), y, x);
      if h != y {
        ReachesTransitive(InnerGraph(p), h, y, x);
      }
    }
  }

  /** An ancestor of a listed key is a parent of some listed key. */
  lemma {:induction false} LastChild(g: Graph<Id>, order: seq<Id>, i: nat, h: Id) returns (j: nat)
    requires Topological(g, order) && i < |order| && Reaches(g, order[i], h)
    ensures j < |order| && order[j] in g && h in g[order[j]]
  {
    var q :| IsPath(g, q) && |q| >= 2 && q[0] == order[i] && q[|q| - 1] == h;
    var n := |q| - 2;
    assert q[n] in g && q[n + 1] in g[q[n]];
    if n == 0 {
      j := i;
    } else {
      var shorter := q[..n + 1];
      assert IsPath(g, shorter) && shorter[n] == q[n];
      PathDescends(g, order, i, shorter);
      j :| 0 <= j < i && order[j] == q[n];
    }
  }

  /** No selected change is a proper ancestor of a selected one and a head. */
  lemma {:induction false} HeadHasNoDescendant(p: Pool, roots: set<Id>, ids: seq<Id>, e: Id, h: Id)
    requires Selected(p, roots, ids) && e in ids && Reaches(InnerGraph(p), p.changes[e].inner, h)
    ensures h !in Heads(p, ids)
  {
    hide Select;
    hide Sorted;
    var g, order := InnerGraph(p), InnerOrder(p, ids);
    SelectedTopological(p, roots, ids);
    var i :| 0 <= i < |ids| && ids[i] == e;
    assert order[i] == p.changes[e].inner;
    var j := LastChild(g, order, i, h);
    assert ids[j] in ids;
    assert h in p.changes[ids[j]].dependencies;
  }

  /**
   The frontier of a selection: it is not empty, no head is an ancestor of another, every
   selected change is a head or below one, and so every change that was selected before
   (the old heads among them) stays covered.
   */
  lemma {:induction false} FrontierIsMaximal(p: Pool, roots: set<Id>, ids: seq<Id>)
    requires Selected(p, roots, ids) && ids != []
    ensures Heads(p, ids) != {}
    ensures forall a, b :: a in Heads(p, ids) && b in Heads(p, ids) ==> !Reaches(InnerGraph(p), a, b)
    ensures forall x :: x in Hashes(p, ids) ==>
              (x in Heads(p, ids) <==> forall y :: y in Hashes(p, ids) ==> !Reaches(InnerGraph(p), y, x))
    ensures forall e :: e in ids ==> Covered(p, Heads(p, ids), p.changes[e].inner)
  {
    hide Select;
    hide Sorted;
    hide Reaches;
    hide Heads;
    assert Heads(p, ids) <= Hashes(p, ids) by { HeadsAreHashes(p, ids); }
    forall e | e in ids
      ensures Covered(p, Heads(p, ids), p.changes[e].inner)
    {
      var i :| 0 <= i < |ids| && ids[i] == e;
      var h := HeadsCover(p, roots, ids, i);
    }
    assert ids[0] in ids;
    forall y, x | y in Hashes(p, ids) && x in Hashes(p, ids) && Reaches(InnerGraph(p), y, x)
      ensures x !in Heads(p, ids)
    {
      var e :| e in ids && p.changes[e].inner == y;
      HeadHasNoDescendant(p, roots, ids, e, x);
    }
    forall x | x in Hashes(p, ids) && x !in Heads(p, ids)
      ensures exists y :: y in Hashes(p, ids) && Reaches(InnerGraph(p), y, x)
    {
      var e :| e in ids && p.changes[e].inner == x;
      assert Covered(p, Heads(p, ids), x);
    }
  }

  lemma {:induction false} HeadsAreHashes(p: Pool, ids: seq<Id>)
    requires forall e :: e in ids ==> e in p.changes
    ensures Heads(p, ids) <= Hashes(p, ids)
  {
  }

  ghost predicate Covered(p: Pool, heads: set<Id>, x: Id) {
    exists h :: h in heads && (h == x || Reaches(InnerGraph(p), h, x))
  }

  // ---------------------------------------------------------------- replay over the recorded part

  /** The pool that a record keeps: the selected envelopes only. */
  function Recorded(p: Pool, ids: seq<Id>): Pool {
    Pool(map e | e in p.changes && e in ids :: p.changes[e],
         map k | k in p.inners && p.inners[k] in ids :: p.inners[k])
  }

  lemma {:induction false} RecordedLinks(p: Pool, roots: set<Id>, ids: seq<Id>, i: nat)
    requires Selected(p, roots, ids) && i < |ids|
    ensures Envelope(ids[i]) in PoolGraph(Recorded(p, ids))
    ensures PoolGraph(Recorded(p, ids))[Envelope(ids[i])] == PoolGraph(p)[Envelope(ids[i])]
  {
    hide Select;
    hide Sorted;
    var e := ids[i];
    var ks := Sorted(p.changes[e].dependencies);
    forall j | 0 <= j < |ks|
      ensures Link(Recorded(p, ids), ks[j]) == Link(p, ks[j])
    {
      assert ks[j] in p.changes[e].dependencies;
      assert p.inners[ks[j]] in ids[..i];
    }
    assert Links(Recorded(p, ids), ks) == Links(p, ks);
  }

  lemma {:induction false} RecordedPool(p: Pool, roots: set<Id>, ids: seq<Id>)
    requires Selected(p, roots, ids)
    ensures ValidPool(Recorded(p, ids))
    ensures forall e :: e in ids ==> e in Recorded(p, ids).changes && Recorded(p, ids).changes[e] == p.changes[e]
    ensures ParentsEarlier(Recorded(p, ids), ids)
    ensures Hashes(Recorded(p, ids), ids) == Hashes(p, ids) && Heads(Recorded(p, ids), ids) == Heads(p, ids)
  {
    hide Select;
    var part := Recorded(p, ids);
    assert forall e :: e in ids ==> e in part.changes && part.changes[e] == p.changes[e];
    assert Hashes(part, ids) == Hashes(p, ids);
    assert DependedOn(part, ids) == DependedOn(p, ids);
  }

  lemma {:induction false} RecordedWalk(p: Pool, roots: set<Id>, ids: seq<Id>)
    requires Selected(p, roots, ids)
    ensures Select(Recorded(p, ids), roots) == Done(Envelopes(ids))
  {
    hide Walk;
    hide Sorted;
    hide ValidPool;
    hide Recorded;
    var part := Recorded(p, ids);
    forall x | x in Envelopes(ids)
      ensures x in PoolGraph(p) && x in PoolGraph(part) && PoolGraph(part)[x] == PoolGraph(p)[x]
    {
      var i :| 0 <= i < |ids| && Envelopes(ids)[i] == x;
      assert ids[i] in ids;
      RecordedLinks(p, roots, ids, i);
    }
    hide PoolGraph;
    WalkAgrees(PoolGraph(p), MAX_INPUTS, PoolGraph(part), MAX_INPUTS, [], [], Envelopes(Sorted(roots)));
  }

  /** Traversing only what was recorded repeats the traversal of the whole pool. */
  lemma {:induction false} RecordedSelects(p: Pool, roots: set<Id>, ids: seq<Id>)
    requires Selected(p, roots, ids)
    ensures Selected(Recorded(p, ids), roots, ids)
    ensures Hashes(Recorded(p, ids), ids) == Hashes(p, ids) && Heads(Recorded(p, ids), ids) == Heads(p, ids)
  {
    RecordedPool(p, roots, ids);
    RecordedWalk(p, roots, ids);
    hide Select;
    hide ValidPool;
    hide ParentsEarlier;
    hide Recorded;
    hide Heads;
    hide Hashes;
  }
}
