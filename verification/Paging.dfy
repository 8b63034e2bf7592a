/** HAVE and NEED: `request_args`, `response_value` and `Source.answer` of `product/wp04/exchange.py`. */
module Paging {
  import opened Ordering

  const MAX_PAGE := 16
  const MAX_CATALOG := 128
  const RECORD_MAX := 800 * 1024

  datatype Descriptor = Descriptor(inner: Id, envelope: Id, size: nat)

  datatype HaveArgs = HaveArgs(token: Option<Id>, offset: nat, limit: nat)

  datatype Page = Page(token: Id, offset: nat, items: seq<Descriptor>, next: Option<nat>, total: nat)

  datatype Answer<+T> = Given(value: T) | StaleView | InvalidRequest | NotObserved

  /** `request_args` for `have`. */
  predicate HaveArgsOk(a: HaveArgs) {
    a.offset <= MAX_CATALOG && 1 <= a.limit <= MAX_PAGE && (a.offset == 0 || a.token.Some?)
  }

  predicate Ascending(items: seq<Descriptor>) {
    forall i, j :: 0 <= i < j < |items| ==> items[i].inner < items[j].inner && items[i].envelope != items[j].envelope
  }

  predicate DescriptorOk(d: Descriptor) {
    1 <= d.size <= RECORD_MAX
  }

  /** Sorted descriptors, as `catalog` returns them: inner and envelope identifiers unique, sizes in range. */
  predicate CatalogOk(catalog: seq<Descriptor>) {
    |catalog| <= MAX_CATALOG && Ascending(catalog) && forall d :: d in catalog ==> DescriptorOk(d)
  }

  function Min(a: int, b: int): (r: int)
    ensures r <= a && r <= b && (r == a || r == b)
  {
    if a < b then a else b
  }

  /** `response_value` for `have`: a sorted list of distinct names is an ascending one. */
  predicate HaveReplyOk(a: HaveArgs, v: Page) {
    && v.offset <= MAX_CATALOG && v.total <= MAX_CATALOG && v.offset == a.offset && v.offset <= v.total
    && (a.token.Some? ==> v.token == a.token.value)
    && |v.items| == Min(a.limit, v.total - v.offset)
    && (forall d :: d in v.items ==> DescriptorOk(d)) && Ascending(v.items)
    && v.next == (if v.offset + |v.items| < v.total then Some(v.offset + |v.items|) else None)
  }

  function AnswerHave(token: Id, catalog: seq<Descriptor>, a: HaveArgs): Answer<Page> {
    if a.token.Some? && a.token.value != token then StaleView
    else if a.offset > |catalog| then InvalidRequest
    else
      var items := catalog[a.offset..Min(a.offset + a.limit, |catalog|)];
      var next := a.offset + |items|;
      Given(Page(token, a.offset, items, if next < |catalog| then Some(next) else None, |catalog|))
  }

  // ---------------------------------------------------------------- answers pass the reply check

  /** Whatever the source answers, the client's schema check accepts. */
  lemma {:induction false} HaveAnswerPasses(token: Id, catalog: seq<Descriptor>, a: HaveArgs)
    requires CatalogOk(catalog) && HaveArgsOk(a) && AnswerHave(token, catalog, a).Given?
    ensures HaveReplyOk(a, AnswerHave(token, catalog, a).value)
  {
  }

  datatype NeedReply = NeedReply(token: Id, rows: seq<(Id, Option<Descriptor>)>)

  predicate NeedArgsOk(ids: seq<Id>) {
    1 <= |ids| <= MAX_PAGE && Distinct(ids)
  }

  predicate NeedReplyOk(ids: seq<Id>, v: NeedReply) {
    && |v.rows| == |ids|
    && forall i :: 0 <= i < |ids| ==>
         v.rows[i].0 == ids[i] && (v.rows[i].1.Some? ==> DescriptorOk(v.rows[i].1.value) && v.rows[i].1.value.inner == ids[i])
  }

  /** `{d[0]: d for d in descriptors}.get(cid)`: the last descriptor of that name. */
  function Lookup(catalog: seq<Descriptor>, cid: Id): Option<Descriptor> {
    if catalog == [] then None
    else if catalog[|catalog| - 1].inner == cid then Some(catalog[|catalog| - 1])
    else Lookup(catalog[..|catalog| - 1], cid)
  }

  lemma {:induction false} LookupFinds(catalog: seq<Descriptor>, cid: Id)
    ensures Lookup(catalog, cid).Some? <==> exists d :: d in catalog && d.inner == cid
    ensures Lookup(catalog, cid).Some? ==> Lookup(catalog, cid).value in catalog && Lookup(catalog, cid).value.inner == cid
  {
    if catalog != [] {
      var n := |catalog| - 1;
      LookupFinds(catalog[..n], cid);
      assert catalog == catalog[..n] + [catalog[n]];
    }
  }

  function AnswerNeed(token: Id, catalog: seq<Descriptor>, ids: seq<Id>): NeedReply {
    NeedReply(token, seq(|ids|, i requires 0 <= i < |ids| => (ids[i], Lookup(catalog, ids[i]))))
  }

  /** NEED keeps order and names, answers null exactly for unknown names, and passes the reply check. */
  lemma {:induction false} NeedAnswerPasses(token: Id, catalog: seq<Descriptor>, ids: seq<Id>)
    requires CatalogOk(catalog) && NeedArgsOk(ids)
    ensures NeedReplyOk(ids, AnswerNeed(token, catalog, ids))
    ensures forall i :: 0 <= i < |ids| ==>
              (AnswerNeed(token, catalog, ids).rows[i].1.None? <==> forall d :: d in catalog ==> d.inner != ids[i])
  {
    forall i | 0 <= i < |ids|
      ensures var row := AnswerNeed(token, catalog, ids).rows[i];
              (row.1.None? <==> forall d :: d in catalog ==> d.inner != ids[i])
              && (row.1.Some? ==> row.1.value in catalog && row.1.value.inner == ids[i])
    {
      LookupFinds(catalog, ids[i]);
    }
  }

  // ---------------------------------------------------------------- following next-offsets

  /**
   A client's walk: it starts at offset 0, and each further request carries the token and
   the next-offset of the reply before. Every reply passed the schema check; nothing else
   is assumed of the server.
   */
  ghost predicate IsWalk(args: seq<HaveArgs>, replies: seq<Page>) {
    && |args| == |replies| > 0 && args[0].offset == 0
    && (forall k :: 0 <= k < |args| ==> HaveArgsOk(args[k]) && HaveReplyOk(args[k], replies[k]))
    && (forall k :: 0 < k < |args| ==> args[k].token == Some(replies[k - 1].token) && replies[k - 1].next == Some(args[k].offset))
  }

  /** Against any server the offsets strictly advance, stay below the bound, and the token never changes. */
  lemma {:induction false} WalkAdvances(args: seq<HaveArgs>, replies: seq<Page>, k: nat)
    requires IsWalk(args, replies) && k < |args|
    ensures k <= args[k].offset && (k > 0 ==> args[k].offset < MAX_CATALOG && args[k - 1].offset < args[k].offset)
    ensures replies[k].token == replies[0].token
  {
    if k > 0 {
      WalkAdvances(args, replies, k - 1);
      assert HaveReplyOk(args[k - 1], replies[k - 1]) && HaveReplyOk(args[k], replies[k]);
    }
  }

  /** So a walk has at most 128 requests, honest server or not. */
  lemma {:induction false} WalkEnds(args: seq<HaveArgs>, replies: seq<Page>)
    requires IsWalk(args, replies)
    ensures |args| <= MAX_CATALOG
  {
    WalkAdvances(args, replies, |args| - 1);
  }

  function Concatenated(replies: seq<Page>): seq<Descriptor> {
    if replies == [] then [] else Concatenated(replies[..|replies| - 1]) + replies[|replies| - 1].items
  }

  ghost predicate Honest(token: Id, catalog: seq<Descriptor>, args: seq<HaveArgs>, replies: seq<Page>) {
    forall k :: 0 <= k < |args| && k < |replies| ==> AnswerHave(token, catalog, args[k]) == Given(replies[k])
  }

  lemma {:induction false} WalkPrefix(token: Id, catalog: seq<Descriptor>, args: seq<HaveArgs>, replies: seq<Page>, k: nat)
    requires CatalogOk(catalog) && IsWalk(args, replies) && Honest(token, catalog, args, replies) && 0 < k <= |args|
    ensures var last := replies[k - 1];
            last.offset + |last.items| <= |catalog| && Concatenated(replies[..k]) == catalog[..last.offset + |last.items|]
  {
    hide CatalogOk;
    hide HaveReplyOk;
    hide AnswerHave;
    var last := replies[k - 1];
    AnswerSlice(token, catalog, args[k - 1], last);
    ConcatenatedStep(replies, k);
    if k == 1 {
      assert catalog[..|last.items|] == last.items;
    } else {
      WalkPrefix(token, catalog, args, replies, k - 1);
      AnswerSlice(token, catalog, args[k - 2], replies[k - 2]);
      assert replies[k - 2].next == Some(args[k - 1].offset);
    }
  }

  /** An honest page is the slice of the catalog at its offset, and its next-offset is the end of the slice. */
  lemma {:induction false} AnswerSlice(token: Id, catalog: seq<Descriptor>, a: HaveArgs, v: Page)
    requires AnswerHave(token, catalog, a) == Given(v)
    ensures v.offset == a.offset && v.offset + |v.items| <= |catalog| && (v.next.Some? ==> v.next.value == v.offset + |v.items|)
    ensures v.items == catalog[v.offset..v.offset + |v.items|]
    ensures catalog[..v.offset] + v.items == catalog[..v.offset + |v.items|]
  {
  }

  lemma {:induction false} ConcatenatedStep(replies: seq<Page>, k: nat)
    requires 0 < k <= |replies|
    ensures Concatenated(replies[..k]) == Concatenated(replies[..k - 1]) + replies[k - 1].items
    ensures k == 1 ==> Concatenated(replies[..k]) == replies[0].items
  {
    assert replies[..k][..k - 1] == replies[..k - 1];
  }

  lemma {:induction false} AnswerEnds(token: Id, catalog: seq<Descriptor>, a: HaveArgs)
    ensures var r := AnswerHave(token, catalog, a);
            r.Given? && r.value.next == None ==> r.value.offset + |r.value.items| == |catalog|
  {
  }

  /** Under one token a finished walk yields the whole catalog, in order, nothing lost or repeated. */
  lemma {:induction false} WalkIsComplete(token: Id, catalog: seq<Descriptor>, args: seq<HaveArgs>, replies: seq<Page>)
    requires CatalogOk(catalog) && IsWalk(args, replies) && Honest(token, catalog, args, replies)
    requires replies[|replies| - 1].next == None
    ensures Concatenated(replies) == catalog
  {
    hide Concatenated;
    hide CatalogOk;
    hide AnswerHave;
    hide HaveReplyOk;
    var n := |replies|;
    WalkPrefix(token, catalog, args, replies, n);
    AnswerEnds(token, catalog, args[n - 1]);
    assert replies[..n] == replies;
    assert catalog[..|catalog|] == catalog;
  }

  /** Against an honest source a walk can always go on: a next-offset asked for is answered. */
  lemma {:induction false} WalkContinues(token: Id, catalog: seq<Descriptor>, args: seq<HaveArgs>, replies: seq<Page>, limit: nat)
    requires CatalogOk(catalog) && IsWalk(args, replies) && Honest(token, catalog, args, replies) && 1 <= limit <= MAX_PAGE
    requires replies[|replies| - 1].next.Some?
    ensures var a := HaveArgs(Some(token), replies[|replies| - 1].next.value, limit);
            var r := AnswerHave(token, catalog, a);
            r.Given? && IsWalk(args + [a], replies + [r.value]) && Honest(token, catalog, args + [a], replies + [r.value])
  {
    var n := |replies|;
    var last := replies[n - 1];
    assert AnswerHave(token, catalog, args[n - 1]) == Given(last);
    var a := HaveArgs(Some(token), last.next.value, limit);
    HaveAnswerPasses(token, catalog, a);
    var args', replies' := args + [a], replies + [AnswerHave(token, catalog, a).value];
    forall k | 0 < k < |args'|
      ensures args'[k].token == Some(replies'[k - 1].token) && replies'[k - 1].next == Some(args'[k].offset)
    {
      if k < n {
        assert args'[k] == args[k] && replies'[k - 1] == replies[k - 1];
      } else {
        assert replies'[k - 1] == last;
      }
    }
  }
}
