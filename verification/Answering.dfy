/** `Source.answer` for every method: the value returned and the snapshot token that it carries. */
module Answering {
  import opened Ordering
  import opened Paging

  const MAX_CERTIFICATE := 4096

  datatype GetArgs = GetArgs(token: Id, inner: Id, envelope: Id)

  /** A catalog record: encrypted bytes with their length, and the author's certificate with its length. */
  datatype Row = Row(inner: Id, raw: Id, size: nat, certificate: Id, certificateSize: nat)

  datatype GetReply = GetReply(token: Id, inner: Id, envelope: Id, row: Row)

  datatype Request = Have(args: HaveArgs) | Need(ids: seq<Id>) | Get(get: GetArgs)

  datatype Value = HaveValue(page: Page) | NeedValue(reply: NeedReply) | GetValue(got: GetReply)

  /** `value[0]`. */
  function Token(v: Value): Id {
    match v
    case HaveValue(page) => page.token
    case NeedValue(reply) => reply.token
    case GetValue(got) => got.token
  }

  /** What `catalog` returns: the snapshot token, the sorted descriptors and the records by envelope. */
  datatype View = View(token: Id, descriptors: seq<Descriptor>, records: map<Id, Row>)

  /** `request_args`. */
  predicate RequestOk(r: Request) {
    match r
    case Have(args) => HaveArgsOk(args)
    case Need(ids) => NeedArgsOk(ids)
    case Get(_) => true
  }

  function AnswerGet(view: View, a: GetArgs): Answer<GetReply> {
    if a.token != view.token then StaleView
    else if a.envelope !in view.records || view.records[a.envelope].inner != a.inner then NotObserved
    else Given(GetReply(view.token, a.inner, a.envelope, view.records[a.envelope]))
  }

  function AnswerTo(view: View, r: Request): Answer<Value> {
    if !RequestOk(r) then InvalidRequest
    else match r
      case Have(args) =>
        (match AnswerHave(view.token, view.descriptors, args)
         case Given(page) => Given(HaveValue(page))
         case StaleView => StaleView
         case _ => InvalidRequest)
      case Need(ids) => Given(NeedValue(AnswerNeed(view.token, view.descriptors, ids)))
      case Get(a) =>
        (match AnswerGet(view, a)
         case Given(got) => Given(GetValue(got))
         case StaleView => StaleView
         case _ => NotObserved)
  }

  /** Whatever is asked, the value carries the token of the snapshot it was read from. */
  lemma {:induction false} AnswerCarriesToken(view: View, r: Request)
    requires AnswerTo(view, r).Given?
    ensures Token(AnswerTo(view, r).value) == view.token
  {
  }

  // ---------------------------------------------------------------- which requests are answered, and how

  /** NEED is always answered: row by row the catalog's descriptor of that hash, or null exactly if there is none. */
  lemma {:induction false} NeedIsAnswered(view: View, ids: seq<Id>)
    requires CatalogOk(view.descriptors)
    requires 1 <= |ids| <= MAX_PAGE && forall i, j :: 0 <= i < j < |ids| ==> ids[i] != ids[j]
    ensures AnswerTo(view, Need(ids)).Given? && AnswerTo(view, Need(ids)).value.NeedValue?
    ensures var rows := AnswerTo(view, Need(ids)).value.reply.rows;
            && |rows| == |ids|
            && forall k :: 0 <= k < |ids| ==>
                 && rows[k].0 == ids[k]
                 && (rows[k].1.None? <==> forall d :: d in view.descriptors ==> d.inner != ids[k])
                 && (rows[k].1.Some? ==> rows[k].1.value in view.descriptors && rows[k].1.value.inner == ids[k])
  {
    NeedAnswerPasses(view.token, view.descriptors, ids);
    forall k | 0 <= k < |ids|
      ensures Lookup(view.descriptors, ids[k]).Some? ==> Lookup(view.descriptors, ids[k]).value in view.descriptors
    {
      LookupFinds(view.descriptors, ids[k]);
    }
  }

  /** HAVE is answered exactly under the live token, or none, and an offset inside; the page starts there and fills the limit. */
  lemma {:induction false} HaveIsAnswered(view: View, a: HaveArgs)
    requires a.offset <= MAX_CATALOG && 1 <= a.limit <= MAX_PAGE && (a.token.None? ==> a.offset == 0)
    ensures var r := AnswerTo(view, Have(a));
            && (r.StaleView? <==> a.token.Some? && a.token.value != view.token)
            && (r.InvalidRequest? <==> (a.token.Some? ==> a.token.value == view.token) && a.offset > |view.descriptors|)
            && (r.Given? <==> (a.token.Some? ==> a.token.value == view.token) && a.offset <= |view.descriptors|)
            && !r.NotObserved?
            && (r.Given? ==>
                  r.value.HaveValue? &&
                  var page := r.value.page;
                  && page.token == view.token && page.offset == a.offset && page.total == |view.descriptors|
                  && |page.items| == Min(a.limit, |view.descriptors| - a.offset)
                  && (forall k :: 0 <= k < |page.items| ==> page.items[k] == view.descriptors[a.offset + k])
                  && (page.next.None? <==> a.offset + |page.items| == |view.descriptors|)
                  && (page.next.Some? ==> page.next.value == a.offset + |page.items|))
  {
  }

  /** GET is answered exactly under the live token and for a record of that hash, with that record. */
  lemma {:induction false} GetIsAnswered(view: View, a: GetArgs)
    ensures var r := AnswerTo(view, Get(a));
            && (r.StaleView? <==> a.token != view.token)
            && (r.NotObserved? <==> a.token == view.token && (a.envelope in view.records ==> view.records[a.envelope].inner != a.inner))
            && (r.Given? <==> a.token == view.token && a.envelope in view.records && view.records[a.envelope].inner == a.inner)
            && (r.Given? ==> r.value.GetValue? && r.value.got.token == view.token && r.value.got.inner == a.inner
                             && r.value.got.envelope == a.envelope && r.value.got.row == view.records[a.envelope])
  {
  }

  /** A limit or an offset out of range, a further page without its token, no names, too many or a repeated one. */
  ghost predicate Malformed(r: Request) {
    match r
    case Have(a) => a.limit == 0 || a.limit > MAX_PAGE || a.offset > MAX_CATALOG || (a.token.None? && a.offset > 0)
    case Need(ids) => |ids| == 0 || |ids| > MAX_PAGE || exists i, j :: 0 <= i < j < |ids| && ids[i] == ids[j]
    case Get(_) => false
  }

  /** A malformed request is invalid, and nothing else about it matters. */
  lemma {:induction false} MalformedIsInvalid(view: View, r: Request)
    requires Malformed(r)
    ensures AnswerTo(view, r).InvalidRequest?
  {
  }

  // ---------------------------------------------------------------- the client's check

  /** A view as `catalog` builds it; `names` reads envelope id and inner hash out of encrypted bytes. */
  ghost predicate ViewOk(names: Id -> (Id, Id), view: View) {
    && CatalogOk(view.descriptors)
    && forall e :: e in view.records ==>
         && names(view.records[e].raw) == (e, view.records[e].inner)
         && 1 <= view.records[e].size <= RECORD_MAX && 1 <= view.records[e].certificateSize <= MAX_CERTIFICATE
  }

  /** `response_value`. */
  predicate ResponseOk(names: Id -> (Id, Id), r: Request, v: Value) {
    match r
    case Have(args) => v.HaveValue? && HaveReplyOk(args, v.page)
    case Need(ids) => v.NeedValue? && NeedReplyOk(ids, v.reply)
    case Get(a) =>
      && v.GetValue? && v.got.token == a.token && v.got.inner == a.inner && v.got.envelope == a.envelope
      && 1 <= v.got.row.size <= RECORD_MAX && 1 <= v.got.row.certificateSize <= MAX_CERTIFICATE
      && names(v.got.row.raw) == (a.envelope, a.inner)
  }

  /** Every answer over a well-formed catalog passes the client's check, for all three methods. */
  lemma {:induction false} AnswerPasses(names: Id -> (Id, Id), view: View, r: Request)
    requires ViewOk(names, view) && AnswerTo(view, r).Given?
    ensures ResponseOk(names, r, AnswerTo(view, r).value)
  {
    match r
    case Have(args) =>
      HaveAnswerPasses(view.token, view.descriptors, args);
    case Need(ids) =>
      NeedAnswerPasses(view.token, view.descriptors, ids);
    case Get(_) =>
  }
}
