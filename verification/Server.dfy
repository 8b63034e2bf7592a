/** The read server's connection machine: `Connection` and `Server` of `product/wp04/exchange.py`. */
module Server {
  import opened Ordering
  import opened Paging
  import opened Answering

  const MAX_REQUEST := 16384
  const MAX_HELLO := 8192
  const MAX_RESPONSE := 1048576

  type Byte = b: nat | b < 256
  type Bytes = seq<Byte>

  /** `struct.unpack('>I', ...)`. */
  function Length(b: Bytes): nat
    requires |b| == 4
  {
    (b[0] as nat) * 0x100_0000 + (b[1] as nat) * 0x1_0000 + (b[2] as nat) * 0x100 + (b[3] as nat)
  }

  function Header(n: nat): Bytes
    requires n < 0x1_0000_0000
  {
    [n / 0x100_0000, n / 0x1_0000 % 256, n / 256 % 256, n % 256]
  }

  /** `frame`: a four-byte length and the bytes. */
  function Frame(raw: Bytes): Bytes
    requires |raw| < 0x1_0000_0000
  {
    Header(|raw|) + raw
  }

  lemma {:induction false} HeaderRoundTrip(n: nat)
    requires n < 0x1_0000_0000
    ensures Length(Header(n)) == n
  {
    var a, b, c := n / 256, n / 0x1_0000, n / 0x100_0000;
    assert a / 256 == b && b / 256 == c && c < 256;
  }

  datatype Phase = Hello | Request | Response

  /** Why a request is refused, as the client is told. */
  datatype RemoteError = StaleRead | Invalid | NotSeen | Unavailable | Unsigned | Other(code: Id)

  /** What a response says. */
  datatype Content = Yes(value: Value) | No(code: RemoteError)

  datatype Checked = Checked(certificate: Id, request: Answering.Request) | Denied(code: RemoteError)

  /**
   The source at one moment: `check_request` for a challenge and a payload, the catalog as
   a certificate may see it, and `make_response`, each of which may raise.
   */
  datatype Source = Source(check: (Bytes, Bytes) -> Checked, view: Id -> Option<View>, sign: (Bytes, Bytes, Content) -> Option<Bytes>)

  /** What became of a request; `Unanswered` is an exception while signing the refusal. */
  datatype Outcome =
    | Success(certificate: Id, value: Value, response: Bytes)
    | Refusal(seen: Option<Id>, code: RemoteError, response: Bytes)
    | Unanswered

  /** A connection; `received` and `delivered` are the byte streams so far, `outcome` and `answered` its history. */
  datatype Connection = Connection(hello: Bytes, phase: Phase, output: Bytes, incoming: Bytes, sent: nat, want: nat,
                                   certificate: Option<Id>, guard: Option<Id>,
                                   received: Bytes, delivered: Bytes, answered: nat, outcome: Option<Outcome>)

  function Accepted(hello: Bytes): Connection
    requires |hello| <= MAX_HELLO
  {
    Connection(hello, Hello, Frame(hello), [], 0, 4, None, None, [], [], 0, None)
  }

  // ---------------------------------------------------------------- reading a request

  datatype Feed = More(c: Connection) | BadLength | Complete(c: Connection, payload: Bytes)

  /** `_read` up to the point where a whole frame is there: one `recv` result appended. */
  function Absorb(c: Connection, b: Bytes): Feed {
    var c := c.(incoming := c.incoming + b, received := c.received + b);
    if |c.incoming| != c.want then More(c)
    else if c.want == 4 then
      var n := Length(c.incoming);
      if 0 < n <= MAX_REQUEST then More(c.(want := 4 + n)) else BadLength
    else if c.want > 4 then Complete(c, c.incoming[4..])
    else BadLength
  }

  /** A connection that is collecting its request. */
  ghost predicate Collecting(c: Connection) {
    && c.phase.Request? && c.incoming == c.received && |c.incoming| < c.want && c.answered == 0
    && (c.want == 4 || (|c.incoming| >= 4 && c.want == 4 + Length(c.incoming[..4]) && 0 < c.want - 4 <= MAX_REQUEST))
  }

  /** What `recv(want - len(incoming))` may return: at least one byte and no more than asked for. */
  ghost predicate Fragment(c: Connection, b: Bytes) {
    0 < |b| <= c.want - |c.incoming|
  }

  lemma {:induction false} AbsorbStep(c: Connection, b: Bytes)
    requires Collecting(c) && Fragment(c, b)
    ensures match Absorb(c, b)
            case More(d) => Collecting(d) && d.received == c.received + b && d.hello == c.hello && d.delivered == c.delivered
                            && d.output == c.output && d.sent == c.sent && d.guard == c.guard
            case BadLength => |c.received + b| == 4 && !(0 < Length((c.received + b)[..4]) <= MAX_REQUEST)
            case Complete(d, payload) =>
              && d.received == c.received + b && d == c.(incoming := d.received, received := d.received)
              && |d.received| == 4 + Length(d.received[..4]) && payload == d.received[4..]
              && 0 < |payload| <= MAX_REQUEST
  {
  }

  function AbsorbAll(c: Connection, fragments: seq<Bytes>): Feed
    decreases |fragments|
  {
    if fragments == [] then More(c)
    else match Absorb(c, fragments[0])
      case More(d) => AbsorbAll(d, fragments[1..])
      case r => r
  }

  /** Fragments as a socket may deliver them, up to the one that completes or breaks the frame. */
  ghost predicate Deliverable(c: Connection, fragments: seq<Bytes>)
    decreases |fragments|
  {
    fragments == [] ||
    (Fragment(c, fragments[0]) &&
     match Absorb(c, fragments[0])
     case More(d) => Deliverable(d, fragments[1..])
     case _ => |fragments| == 1)
  }

  function Joined(fragments: seq<Bytes>): Bytes {
    if fragments == [] then [] else fragments[0] + Joined(fragments[1..])
  }

  /**
   However `recv` splits a client's stream, a completed request is exactly the framed
   payload at its start, never a byte of what follows, and a wrong length is noticed after
   exactly four bytes.
   */
  lemma {:induction false} FragmentsDoNotMatter(c: Connection, fragments: seq<Bytes>, stream: Bytes)
    requires Collecting(c) && Deliverable(c, fragments) && c.received + Joined(fragments) <= stream
    ensures match AbsorbAll(c, fragments)
            case More(d) => Collecting(d) && d.received == c.received + Joined(fragments)
            case BadLength => |stream| >= 4 && !(0 < Length(stream[..4]) <= MAX_REQUEST)
            case Complete(d, payload) =>
              && |stream| >= 4 + |payload| && |payload| == Length(stream[..4])
              && payload == stream[4..4 + |payload|] && d.received == stream[..4 + |payload|]
    decreases |fragments|
  {
    if fragments != [] {
      AbsorbStep(c, fragments[0]);
      var all := c.received + Joined(fragments);
      assert all == c.received + fragments[0] + Joined(fragments[1..]);
      match Absorb(c, fragments[0])
      case More(d) =>
        FragmentsDoNotMatter(d, fragments[1..], stream);
      case BadLength =>
        assert stream[..4] == (c.received + fragments[0])[..4];
      case Complete(d, payload) =>
        assert d.received == stream[..|d.received|];
        assert stream[..4] == d.received[..4];
    }
  }

  /** A client that frames its request is understood, whatever follows on the stream. */
  lemma {:induction false} FramedRequestIsRead(c: Connection, fragments: seq<Bytes>, request: Bytes, rest: Bytes)
    requires Collecting(c) && c.received == [] && Deliverable(c, fragments)
    requires 0 < |request| <= MAX_REQUEST && Joined(fragments) <= Frame(request) + rest
    ensures match AbsorbAll(c, fragments)
            case More(d) => |Joined(fragments)| < |Frame(request)|
            case BadLength => false
            case Complete(d, payload) => payload == request
  {
    var stream := Frame(request) + rest;
    HeaderRoundTrip(|request|);
    assert stream[..4] == Header(|request|);
    assert stream[4..4 + |request|] == request;
    assert [] + Joined(fragments) == Joined(fragments);
    FragmentsDoNotMatter(c, fragments, stream);
    var r := AbsorbAll(c, fragments);
    if r.More? {
      var d := r.c;
      assert d.received == Joined(fragments);
      if |d.received| >= 4 {
        assert d.received[..4] == stream[..4];
      }
    }
  }

  // ---------------------------------------------------------------- steps of one connection

  /** What a step leaves: a live connection, or its last state when it is closed. */
  datatype Step = Keep(c: Connection) | Gone(last: Connection, complete: bool)

  predicate Framable(raw: Bytes) {
    1 <= |raw| <= MAX_RESPONSE
  }

  // ---------------------------------------------------------------- deciding a request

  /** The `except` branch: the refusal is signed in turn. */
  function Refuse(s: Source, hello: Bytes, raw: Bytes, seen: Option<Id>, code: RemoteError): Outcome {
    match s.sign(hello, raw, No(code))
    case Some(response) => Refusal(seen, code, response)
    case None => Unanswered
  }

  /** `check_request`, `answer` and `make_response`, in this order; whatever raises leads to a refusal. */
  function Decide(s: Source, hello: Bytes, raw: Bytes): Outcome {
    match s.check(hello, raw)
    case Denied(code) => Refuse(s, hello, raw, None, code)
    case Checked(certificate, request) =>
      match s.view(certificate)
      case None => Refuse(s, hello, raw, None, Unavailable)
      case Some(view) =>
        match AnswerTo(view, request)
        case StaleView => Refuse(s, hello, raw, None, StaleRead)
        case InvalidRequest => Refuse(s, hello, raw, None, Invalid)
        case NotObserved => Refuse(s, hello, raw, None, NotSeen)
        case Given(value) =>
          match s.sign(hello, raw, Yes(value))
          case None => Refuse(s, hello, raw, Some(certificate), Unsigned)
          case Some(response) => Success(certificate, value, response)
  }

  function ResponseOf(o: Outcome): Bytes
    requires !o.Unanswered?
  {
    o.response
  }

  function GuardOf(o: Outcome): Option<Id> {
    if o.Success? then Some(Token(o.value)) else None
  }

  function CertificateOf(o: Outcome): Option<Id> {
    match o
    case Success(certificate, _, _) => Some(certificate)
    case Refusal(seen, _, _) => seen
    case Unanswered => None
  }

  /** `source.guard(certificate)`: the token of the snapshot that this certificate sees now. */
  function LiveToken(s: Source, certificate: Option<Id>): Option<Id> {
    if certificate.Some? && s.view(certificate.value).Some? then Some(s.view(certificate.value).value.token) else None
  }

  /** A success answers the checked request out of one snapshot, and its guard is that snapshot's token. */
  lemma {:induction false} SuccessIsOfSnapshot(s: Source, hello: Bytes, raw: Bytes)
    requires Decide(s, hello, raw).Success?
    ensures var o := Decide(s, hello, raw);
            && s.check(hello, raw).Checked? && s.check(hello, raw).certificate == o.certificate && s.view(o.certificate).Some?
            && AnswerTo(s.view(o.certificate).value, s.check(hello, raw).request) == Given(o.value)
            && s.sign(hello, raw, Yes(o.value)) == Some(o.response)
            && GuardOf(o) == LiveToken(s, Some(o.certificate)) && GuardOf(o).Some?
  {
    AnswerCarriesToken(s.view(Decide(s, hello, raw).certificate).value, s.check(hello, raw).request);
  }

  /** What the request amounts to before anything is signed: the answer, or why there is none. */
  ghost predicate Refused(s: Source, hello: Bytes, raw: Bytes, code: RemoteError) {
    var k := s.check(hello, raw);
    match code
    case Unavailable => k.Checked? && s.view(k.certificate).None?
    case StaleRead => k.Checked? && s.view(k.certificate).Some? && AnswerTo(s.view(k.certificate).value, k.request).StaleView?
    case Invalid => k.Checked? && s.view(k.certificate).Some? && AnswerTo(s.view(k.certificate).value, k.request).InvalidRequest?
    case NotSeen => k.Checked? && s.view(k.certificate).Some? && AnswerTo(s.view(k.certificate).value, k.request).NotObserved?
    case Unsigned =>
      && k.Checked? && s.view(k.certificate).Some?
      && var a := AnswerTo(s.view(k.certificate).value, k.request);
         a.Given? && s.sign(hello, raw, Yes(a.value)).None?
    case Other(_) => false
  }

  /** Checked, readable, answered and signed: a success exactly then. */
  ghost predicate Answerable(s: Source, hello: Bytes, raw: Bytes) {
    var k := s.check(hello, raw);
    && k.Checked? && s.view(k.certificate).Some?
    && var a := AnswerTo(s.view(k.certificate).value, k.request);
       a.Given? && s.sign(hello, raw, Yes(a.value)).Some?
  }

  /**
   A request succeeds exactly when it is checked, readable, answered and signed. Otherwise it
   is refused with the check's own code or the code of what failed, in a response signed
   over that code, and is unanswered exactly when that cannot be signed either.
   */
  lemma {:induction false} DecidedExactly(s: Source, hello: Bytes, raw: Bytes)
    ensures var o := Decide(s, hello, raw);
            && (o.Success? <==> Answerable(s, hello, raw))
            && (o.Refusal? ==>
                  && s.sign(hello, raw, No(o.code)) == Some(o.response)
                  && (s.check(hello, raw) == Denied(o.code) || Refused(s, hello, raw, o.code)))
            && (o.Unanswered? ==>
                  exists code :: s.sign(hello, raw, No(code)).None? && (s.check(hello, raw) == Denied(code) || Refused(s, hello, raw, code)))
  {
  }

  /** A refused request has one code. */
  lemma {:induction false} OneCode(s: Source, hello: Bytes, raw: Bytes, a: RemoteError, b: RemoteError)
    requires s.check(hello, raw) == Denied(a) || Refused(s, hello, raw, a)
    requires s.check(hello, raw) == Denied(b) || Refused(s, hello, raw, b)
    ensures a == b && !Answerable(s, hello, raw)
  {
  }

  function ReadStep(c: Connection, b: Bytes, s: Source): Step {
    if b == [] then Gone(c, false)
    else match Absorb(c, b)
      case More(d) => Keep(d)
      case BadLength => Gone(c, false)
      case Complete(d, payload) =>
        var o := Decide(s, d.hello, payload);
        if !o.Unanswered? && Framable(ResponseOf(o)) then
          Keep(d.(output := Frame(ResponseOf(o)), sent := 0, incoming := [], phase := Response,
                  certificate := CertificateOf(o), guard := GuardOf(o), answered := d.answered + 1, outcome := Some(o)))
        else Gone(c, false)
  }

  /** `live` is what the source's guard says now; `n` is what `send` accepts of the offered chunk. */
  function WriteStep(c: Connection, live: Option<Id>, n: nat): Step
    requires c.sent + n <= |c.output|
  {
    if c.phase.Response? && c.guard.Some? && live != c.guard then Gone(c, false)
    else if n == 0 then Gone(c, false)
    else
      var d := c.(sent := c.sent + n, delivered := c.delivered + c.output[c.sent..c.sent + n]);
      if d.sent < |d.output| then Keep(d)
      else if d.phase.Response? then Gone(d, true)
      else Keep(d.(output := [], sent := 0, phase := Request))
  }

  /** Every live connection: what it has delivered and received so far, and whether it was answered. */
  ghost predicate ConnectionOk(c: Connection) {
    && |c.hello| <= MAX_HELLO
    && match c.phase
       case Hello =>
         && c.output == Frame(c.hello) && c.sent < |c.output| && c.delivered == c.output[..c.sent]
         && c.incoming == c.received == [] && c.want == 4 && c.answered == 0 && c.outcome.None? && c.certificate.None?
       case Request =>
         Collecting(c) && c.delivered == Frame(c.hello) && c.output == [] && c.sent == 0 && c.outcome.None? && c.certificate.None?
       case Response =>
         && c.sent < |c.output| && c.delivered == Frame(c.hello) + c.output[..c.sent]
         && AnsweredOk(c) && c.guard == GuardOf(c.outcome.value) && c.certificate == CertificateOf(c.outcome.value)
  }

  /** The connection got one framed request, and its output is the frame of the one response to it. */
  ghost predicate AnsweredOk(c: Connection) {
    && c.answered == 1 && |c.received| >= 4 && |c.received| == 4 + Length(c.received[..4])
    && c.outcome.Some? && !c.outcome.value.Unanswered? && |ResponseOf(c.outcome.value)| <= MAX_RESPONSE
    && c.output == Frame(ResponseOf(c.outcome.value))
  }

  /** A completed connection delivered exactly the frames of its challenge and of the one response to its request. */
  ghost predicate FinishedOk(c: Connection) {
    |c.hello| <= MAX_HELLO && AnsweredOk(c) && c.delivered == Frame(c.hello) + Frame(ResponseOf(c.outcome.value))
  }

  lemma {:induction false} AcceptedIsOk(hello: Bytes)
    requires |hello| <= MAX_HELLO
    ensures ConnectionOk(Accepted(hello)) && Accepted(hello).phase.Hello?
  {
  }

  lemma {:induction false} ReadKeepsOk(c: Connection, b: Bytes, s: Source)
    requires ConnectionOk(c) && c.phase.Request? && (b != [] ==> Fragment(c, b))
    ensures ReadStep(c, b, s).Gone? ==> !ReadStep(c, b, s).complete
    ensures ReadStep(c, b, s).Keep? ==>
              var d := ReadStep(c, b, s).c;
              && ConnectionOk(d) && d.hello == c.hello && d.received == c.received + b && !d.phase.Hello?
              && (d.phase.Response? ==> d.outcome == Some(Decide(s, c.hello, d.received[4..])))
  {
    hide Decide;
    hide Frame;
    hide Length;
    if b != [] {
      AbsorbStep(c, b);
      hide Absorb;
      match Absorb(c, b)
      case More(d) =>
      case BadLength =>
      case Complete(d, payload) =>
        var o := Decide(s, d.hello, payload);
        if !o.Unanswered? && Framable(ResponseOf(o)) {
          FrameStarts(ResponseOf(o));
        }
    }
  }

  lemma {:induction false} FrameStarts(raw: Bytes)
    requires |raw| < 0x1_0000_0000
    ensures |Frame(raw)| > 0 && Frame(raw)[..0] == []
  {
  }

  lemma {:induction false} HelloWriteKeepsOk(c: Connection, live: Option<Id>, n: nat)
    requires ConnectionOk(c) && c.phase.Hello? && c.sent + n <= |c.output|
    ensures var s := WriteStep(c, live, n);
            if s.Keep? then
              ConnectionOk(s.c) && s.c.hello == c.hello && s.c.outcome == c.outcome && s.c.received == c.received && !s.c.phase.Response?
            else !s.complete
  {
  }

  lemma {:induction false} ResponseWriteKeepsOk(c: Connection, live: Option<Id>, n: nat)
    requires ConnectionOk(c) && c.phase.Response? && c.sent + n <= |c.output|
    ensures var s := WriteStep(c, live, n);
            if s.Keep? then
              ConnectionOk(s.c) && s.c.hello == c.hello && s.c.outcome == c.outcome && s.c.received == c.received && s.c.phase.Response?
            else s.complete ==> FinishedOk(s.last) && s.last.hello == c.hello && s.last.outcome == c.outcome && s.last.received == c.received
  {
  }

  lemma {:induction false} WriteKeepsOk(c: Connection, live: Option<Id>, n: nat)
    requires ConnectionOk(c) && !c.phase.Request? && c.sent + n <= |c.output|
    ensures var s := WriteStep(c, live, n);
            if s.Keep? then
              && ConnectionOk(s.c) && s.c.hello == c.hello && s.c.outcome == c.outcome && s.c.received == c.received
              && (s.c.phase.Response? <==> c.phase.Response?)
            else s.complete ==> FinishedOk(s.last) && s.last.hello == c.hello && s.last.outcome == c.outcome && s.last.received == c.received
  {
    if c.phase.Hello? {
      HelloWriteKeepsOk(c, live, n);
    } else {
      ResponseWriteKeepsOk(c, live, n);
    }
  }
}
