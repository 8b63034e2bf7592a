/** `Server._accept`, `_read`, `_write`, `_drop`, `poll` and `close` over all live connections. */
module ServerLoop {
  import opened Ordering
  import opened Answering
  import opened Server

  /** An accepted socket: whether its set-up succeeds, and its freshly signed challenge. */
  datatype Socket = Socket(ok: bool, hello: Bytes)

  /** One entry of `selector.select`: the listening socket, or a connection with what its socket and the source now yield. */
  datatype Event =
    | Arrivals(sockets: seq<Socket>)
    | Ready(id: Id, late: bool, blocked: bool, bytes: Bytes, source: Source, room: nat)

  /** History: a request answered on a connection, with the snapshot token its certificate saw at that moment. */
  datatype Answered = Answered(id: Id, received: Bytes, payload: Bytes, outcome: Outcome, snapshot: Option<Id>)

  /**
   History: bytes handed to the kernel. `outcome` is what they belong to, `None` for a
   challenge; `live` is the snapshot token that the answer's certificate saw just before.
   */
  datatype Chunk = Chunk(id: Id, outcome: Option<Outcome>, live: Option<Id>, bytes: Bytes)

  ghost predicate AnswersOk(answers: seq<Answered>, next: Id) {
    && (forall k :: 0 <= k < |answers| ==> answers[k].id < next)
    && (forall j, k :: 0 <= j < k < |answers| ==> answers[j].id != answers[k].id)
    && (forall k :: 0 <= k < |answers| ==> AnswerOk(answers[k]))
  }

  /** The payload is what the frame at the start of the received bytes holds; a success was read from the live snapshot. */
  ghost predicate AnswerOk(a: Answered) {
    && |a.received| >= 4 && |a.received| == 4 + Length(a.received[..4]) && a.payload == a.received[4..]
    && (a.outcome.Success? ==> a.snapshot == Some(Token(a.outcome.value)))
  }

  /** A chunk of a response belongs to the answer of its connection; of a success, it went out under the answer's token. */
  ghost predicate ChunkOk(answers: seq<Answered>, chunk: Chunk) {
    chunk.outcome.Some? ==>
      && HasAnswer(answers, chunk.id, chunk.outcome.value)
      && (chunk.outcome.value.Success? ==> chunk.live == Some(Token(chunk.outcome.value.value)))
  }

  ghost predicate ChunksOk(answers: seq<Answered>, chunks: seq<Chunk>) {
    forall k :: 0 <= k < |chunks| ==> ChunkOk(answers, chunks[k])
  }

  ghost predicate HasAnswer(answers: seq<Answered>, id: Id, o: Outcome) {
    exists k :: 0 <= k < |answers| && answers[k].id == id && answers[k].outcome == o
  }

  ghost predicate WasAnswered(answers: seq<Answered>, id: Id) {
    exists k :: 0 <= k < |answers| && answers[k].id == id
  }

  datatype Counts = Counts(accepted: nat, completed: nat, rejected: nat, dropped: nat, expired: nat, overloaded: nat, changed: nat)

  datatype State = State(connections: map<Id, Connection>, counts: Counts, next: Id,
                         answers: seq<Answered>, chunks: seq<Chunk>, finished: map<Id, Connection>)

  // ---------------------------------------------------------------- the effect of each operation

  function Dropped(s: State, id: Id): State {
    s.(connections := s.connections - {id}, counts := s.counts.(dropped := s.counts.dropped + 1))
  }

  function Completed(s: State, id: Id, last: Connection): State {
    s.(connections := s.connections - {id}, counts := s.counts.(completed := s.counts.completed + 1),
       finished := s.finished[id := last])
  }

  function Expired(s: State, id: Id): State {
    var d := Dropped(s, id);
    d.(counts := d.counts.(expired := d.counts.expired + 1))
  }

  function Arrived(s: State, socket: Socket, maximum: nat): State {
    if |s.connections| >= maximum then s.(counts := s.counts.(overloaded := s.counts.overloaded + 1))
    else if !socket.ok || !(1 <= |socket.hello| <= MAX_HELLO) then s.(counts := s.counts.(rejected := s.counts.rejected + 1))
    else s.(connections := s.connections[s.next := Accepted(socket.hello)], next := s.next + 1,
            counts := s.counts.(accepted := s.counts.accepted + 1))
  }

  function AnswerOf(id: Id, c: Connection, s: Source): Answered {
    Answered(id, c.received, if |c.received| >= 4 then c.received[4..] else [],
             if c.outcome.Some? then c.outcome.value else Unanswered, LiveToken(s, c.certificate))
  }

  /** Whether a read ended in the `except` branch, which counts it as rejected. */
  predicate Rejects(c: Connection, b: Bytes, s: Source) {
    b != [] && Absorb(c, b).Complete? && !Decide(s, c.hello, Absorb(c, b).payload).Success?
  }

  function AfterRead(s: State, id: Id, b: Bytes, source: Source): State
    requires id in s.connections
  {
    var step := ReadStep(s.connections[id], b, source);
    var t := if Rejects(s.connections[id], b, source) then s.(counts := s.counts.(rejected := s.counts.rejected + 1)) else s;
    if step.Gone? then Dropped(t, id)
    else if step.c.phase.Response? then
      t.(connections := t.connections[id := step.c], answers := t.answers + [AnswerOf(id, step.c, source)])
    else t.(connections := t.connections[id := step.c])
  }

  function AfterWrite(s: State, id: Id, source: Source, n: nat): State
    requires id in s.connections && s.connections[id].sent + n <= |s.connections[id].output|
  {
    var c := s.connections[id];
    var live := LiveToken(source, c.certificate);
    var step := WriteStep(c, live, n);
    var chunk := ChunkOf(id, c, source, n);
    if step.Keep? then s.(connections := s.connections[id := step.c], chunks := s.chunks + [chunk])
    else if step.complete then Completed(s.(chunks := s.chunks + [chunk]), id, step.last)
    else if Stale(c, live) then Dropped(s.(counts := s.counts.(changed := s.counts.changed + 1)), id)
    else Dropped(s, id)
  }

  function ChunkOf(id: Id, c: Connection, source: Source, n: nat): Chunk
    requires c.sent + n <= |c.output|
  {
    Chunk(id, c.outcome, LiveToken(source, c.certificate), c.output[c.sent..c.sent + n])
  }

  predicate Stale(c: Connection, live: Option<Id>) {
    c.phase.Response? && c.guard.Some? && live != c.guard
  }

  // ---------------------------------------------------------------- what every operation keeps

  ghost predicate LiveOk(s: State) {
    forall id :: id in s.connections ==> LiveAt(s.answers, s.next, id, s.connections[id])
  }

  ghost predicate LiveAt(answers: seq<Answered>, next: Id, id: Id, c: Connection) {
    id < next && ConnectionOk(c) && (WasAnswered(answers, id) <==> c.phase.Response?) && Logged(answers, id, c)
  }

  /** What became of a connection's request is on record. */
  ghost predicate Logged(answers: seq<Answered>, id: Id, c: Connection) {
    c.outcome.Some? ==> HasAnswer(answers, id, c.outcome.value)
  }

  ghost predicate DoneOk(s: State) {
    forall id :: id in s.finished ==> id !in s.connections && DoneAt(s.answers, s.next, id, s.finished[id])
  }

  ghost predicate DoneAt(answers: seq<Answered>, next: Id, id: Id, c: Connection) {
    id < next && FinishedOk(c) && Logged(answers, id, c)
  }

  ghost predicate CountsOk(s: State) {
    && s.counts.accepted == |s.connections| + s.counts.completed + s.counts.dropped
    && s.counts.expired + s.counts.changed <= s.counts.dropped
  }

  /**
   What holds between any two events: the connection bound, the count of connections, the
   byte streams of every live and finished connection, at most one answer per challenge,
   each to exactly the framed request, and every chunk of a success sent only while the
   source's snapshot was still the one that the success was read from.
   */
  ghost predicate StateOk(s: State, maximum: nat) {
    |s.connections| <= maximum && CountsOk(s) && LiveOk(s) && DoneOk(s) && AnswersOk(s.answers, s.next) && ChunksOk(s.answers, s.chunks)
  }

  lemma {:induction false} Removed(connections: map<Id, Connection>, id: Id)
    requires id in connections
    ensures |connections - {id}| == |connections| - 1
  {
  }

  lemma {:induction false} Updated(connections: map<Id, Connection>, id: Id, c: Connection)
    ensures |connections[id := c]| == if id in connections then |connections| else |connections| + 1
  {
  }

  lemma {:induction false} DropKeeps(s: State, id: Id, maximum: nat)
    requires StateOk(s, maximum) && id in s.connections
    ensures StateOk(Dropped(s, id), maximum) && StateOk(Expired(s, id), maximum)
    ensures StateOk(Dropped(s.(counts := s.counts.(changed := s.counts.changed + 1)), id), maximum)
  {
    hide ConnectionOk;
    hide FinishedOk;
    hide AnswersOk;
    hide ChunksOk;
    hide WasAnswered;
    hide Logged;
    hide LiveAt;
    hide DoneAt;
    Removed(s.connections, id);
  }

  lemma {:induction false} CompleteKeeps(s: State, id: Id, last: Connection, maximum: nat)
    requires StateOk(s, maximum) && id in s.connections && FinishedOk(last) && last.outcome == s.connections[id].outcome
    ensures StateOk(Completed(s, id, last), maximum)
  {
    hide ConnectionOk;
    hide FinishedOk;
    hide AnswersOk;
    hide ChunksOk;
    hide WasAnswered;
    hide Logged;
    hide LiveAt;
    hide DoneAt;
    FinishedAt(s.answers, s.next, id, s.connections[id], last);
    Removed(s.connections, id);
  }

  lemma {:induction false} FinishedAt(answers: seq<Answered>, next: Id, id: Id, c: Connection, last: Connection)
    requires LiveAt(answers, next, id, c) && FinishedOk(last) && c.outcome == last.outcome
    ensures DoneAt(answers, next, id, last)
  {
  }

  lemma {:induction false} ReplacedAt(answers: seq<Answered>, next: Id, id: Id, c: Connection, d: Connection)
    requires LiveAt(answers, next, id, c) && ConnectionOk(d) && c.outcome == d.outcome && (c.phase.Response? <==> d.phase.Response?)
    ensures LiveAt(answers, next, id, d)
  {
  }

  lemma {:induction false} ArrivalKeeps(s: State, socket: Socket, maximum: nat)
    requires StateOk(s, maximum)
    ensures StateOk(Arrived(s, socket, maximum), maximum)
  {
    hide ConnectionOk;
    hide FinishedOk;
    hide AnswersOk;
    hide ChunksOk;
    hide WasAnswered;
    hide Logged;
    hide Accepted;
    NotYetAnswered(s.answers, s.next);
    if socket.ok && 1 <= |socket.hello| <= MAX_HELLO {
      AcceptedIsOk(socket.hello);
      AcceptedLogged(s.answers, s.next, socket.hello);
      Updated(s.connections, s.next, Accepted(socket.hello));
    }
  }

  lemma {:induction false} AcceptedLogged(answers: seq<Answered>, id: Id, hello: Bytes)
    requires |hello| <= MAX_HELLO
    ensures Logged(answers, id, Accepted(hello))
  {
  }

  /** A live connection may be replaced by one of the same outcome. */
  lemma {:induction false} ReplaceKeeps(s: State, id: Id, c: Connection, maximum: nat)
    requires StateOk(s, maximum) && id in s.connections && ConnectionOk(c)
    requires c.outcome == s.connections[id].outcome && (s.connections[id].phase.Response? <==> c.phase.Response?)
    ensures StateOk(s.(connections := s.connections[id := c]), maximum)
  {
    hide ConnectionOk;
    hide FinishedOk;
    hide AnswersOk;
    hide ChunksOk;
    hide WasAnswered;
    hide Logged;
    hide LiveAt;
    hide DoneAt;
    ReplacedAt(s.answers, s.next, id, s.connections[id], c);
    Updated(s.connections, id, c);
  }

  lemma {:induction false} AnswerKeeps(s: State, id: Id, c: Connection, source: Source, maximum: nat)
    requires StateOk(s, maximum) && id in s.connections && ConnectionOk(c)
    requires !s.connections[id].phase.Response? && c.phase.Response? && AnswerOk(AnswerOf(id, c, source))
    ensures StateOk(s.(connections := s.connections[id := c], answers := s.answers + [AnswerOf(id, c, source)]), maximum)
  {
    hide ConnectionOk;
    hide FinishedOk;
    hide AnswersOk;
    hide ChunksOk;
    hide WasAnswered;
    hide Logged;
    hide AnswerOf;
    hide AnswerOk;
    var a := AnswerOf(id, c, source);
    AnswerOfIs(id, c, source);
    Updated(s.connections, id, c);
    OneMoreAnswer(s.answers, s.next, a);
    MoreAnswers(s.answers, a, s.chunks);
    NowLogged(s.answers, a, c);
  }

  lemma {:induction false} AnswerOfIs(id: Id, c: Connection, source: Source)
    ensures AnswerOf(id, c, source).id == id
    ensures ConnectionOk(c) && c.phase.Response? ==> c.outcome == Some(AnswerOf(id, c, source).outcome)
  {
  }

  lemma {:induction false} NowLogged(answers: seq<Answered>, a: Answered, c: Connection)
    requires c.outcome == Some(a.outcome)
    ensures Logged(answers + [a], a.id, c)
  {
    assert (answers + [a])[|answers|] == a;
  }

  /** Further answers disturb nothing on record. */
  lemma {:induction false} MoreAnswers(answers: seq<Answered>, a: Answered, chunks: seq<Chunk>)
    ensures forall id, c :: Logged(answers, id, c) ==> Logged(answers + [a], id, c)
    ensures ChunksOk(answers, chunks) ==> ChunksOk(answers + [a], chunks)
  {
    forall id, o | HasAnswer(answers, id, o)
      ensures HasAnswer(answers + [a], id, o)
    {
      var k :| 0 <= k < |answers| && answers[k].id == id && answers[k].outcome == o;
      assert (answers + [a])[k] == answers[k];
    }
    hide HasAnswer;
  }

  lemma {:induction false} CountKeeps(s: State, counts: Counts, maximum: nat)
    requires StateOk(s, maximum) && s.counts.(rejected := counts.rejected, overloaded := counts.overloaded) == counts
    ensures StateOk(s.(counts := counts), maximum)
  {
  }

  lemma {:induction false} LiveConnection(s: State, id: Id, maximum: nat)
    requires StateOk(s, maximum) && id in s.connections
    ensures ConnectionOk(s.connections[id]) && Logged(s.answers, id, s.connections[id])
  {
  }

  /** A request that has just been answered is on record as it should be. */
  lemma {:induction false} FreshAnswerOk(id: Id, c: Connection, source: Source)
    requires ConnectionOk(c) && c.phase.Response? && c.outcome == Some(Decide(source, c.hello, c.received[4..]))
    ensures AnswerOk(AnswerOf(id, c, source))
  {
    var o := Decide(source, c.hello, c.received[4..]);
    if o.Success? {
      SuccessIsOfSnapshot(source, c.hello, c.received[4..]);
    }
    hide Decide;
    hide Frame;
  }

  lemma {:induction false} ReadKeeps(s: State, id: Id, b: Bytes, source: Source, maximum: nat)
    requires StateOk(s, maximum) && id in s.connections && s.connections[id].phase.Request?
    requires b != [] ==> Fragment(s.connections[id], b)
    ensures StateOk(AfterRead(s, id, b, source), maximum)
  {
    hide StateOk;
    hide ConnectionOk;
    hide Fragment;
    hide ReadStep;
    hide Rejects;
    hide AnswerOf;
    hide AnswerOk;
    hide Dropped;
    hide Logged;
    hide Decide;
    var c := s.connections[id];
    LiveConnection(s, id, maximum);
    var step := ReadStep(c, b, source);
    ReadKeepsOk(c, b, source);
    CountKeeps(s, s.counts.(rejected := s.counts.rejected + 1), maximum);
    var t := if Rejects(c, b, source) then s.(counts := s.counts.(rejected := s.counts.rejected + 1)) else s;
    if step.Gone? {
      DropKeeps(t, id, maximum);
    } else if step.c.phase.Response? {
      FreshAnswerOk(id, step.c, source);
      AnswerKeeps(t, id, step.c, source, maximum);
    } else {
      NotAnsweredYet(c, step.c);
      ReplaceKeeps(t, id, step.c, maximum);
    }
  }

  lemma {:induction false} NotAnsweredYet(c: Connection, d: Connection)
    requires ConnectionOk(c) && !c.phase.Response? && ConnectionOk(d) && !d.phase.Response?
    ensures c.outcome == d.outcome
  {
  }

  lemma {:induction false} ChunkKeeps(s: State, chunk: Chunk, maximum: nat)
    requires StateOk(s, maximum) && ChunkOk(s.answers, chunk)
    ensures StateOk(s.(chunks := s.chunks + [chunk]), maximum)
  {
    hide ConnectionOk;
    hide FinishedOk;
    hide AnswersOk;
    hide WasAnswered;
    hide Logged;
    hide ChunkOk;
    var more := s.chunks + [chunk];
    assert forall k :: 0 <= k < |more| ==> more[k] == if k < |s.chunks| then s.chunks[k] else chunk;
  }

  lemma {:induction false} WriteKeeps(s: State, id: Id, source: Source, n: nat, maximum: nat)
    requires StateOk(s, maximum) && id in s.connections && !s.connections[id].phase.Request?
    requires s.connections[id].sent + n <= |s.connections[id].output|
    ensures StateOk(AfterWrite(s, id, source, n), maximum)
  {
    hide StateOk;
    hide ConnectionOk;
    hide FinishedOk;
    hide WriteStep;
    hide Dropped;
    hide Completed;
    hide Logged;
    hide ChunkOf;
    hide ChunkOk;
    var c := s.connections[id];
    LiveConnection(s, id, maximum);
    var live := LiveToken(source, c.certificate);
    var step := WriteStep(c, live, n);
    WriteKeepsOk(c, live, n);
    if step.Keep? || step.complete {
      SentChunkOk(s.answers, id, c, source, n);
      var chunk := ChunkOf(id, c, source, n);
      ChunkKeeps(s, chunk, maximum);
      var t := s.(chunks := s.chunks + [chunk]);
      if step.Gone? {
        CompleteKeeps(t, id, step.last, maximum);
      } else {
        ReplaceKeeps(t, id, step.c, maximum);
        assert AfterWrite(s, id, source, n) == t.(connections := t.connections[id := step.c]);
      }
    } else {
      DropKeeps(s, id, maximum);
    }
  }

  /** A chunk that goes out belongs to the answer on record, and of a success it goes out under the answer's token. */
  lemma {:induction false} SentChunkOk(answers: seq<Answered>, id: Id, c: Connection, source: Source, n: nat)
    requires ConnectionOk(c) && !c.phase.Request? && c.sent + n <= |c.output| && Logged(answers, id, c)
    requires var step := WriteStep(c, LiveToken(source, c.certificate), n); step.Keep? || step.complete
    ensures ChunkOk(answers, ChunkOf(id, c, source, n))
  {
    hide Frame;
    hide Length;
    hide HasAnswer;
  }

  lemma {:induction false} NotYetAnswered(answers: seq<Answered>, next: Id)
    requires AnswersOk(answers, next)
    ensures !WasAnswered(answers, next) && AnswersOk(answers, next + 1)
  {
  }

  lemma {:induction false} OneMoreAnswer(answers: seq<Answered>, next: Id, a: Answered)
    requires AnswersOk(answers, next) && a.id < next && !WasAnswered(answers, a.id) && AnswerOk(a)
    ensures AnswersOk(answers + [a], next)
    ensures forall id :: WasAnswered(answers + [a], id) <==> WasAnswered(answers, id) || id == a.id
  {
    hide AnswerOk;
    var now := answers + [a];
    forall id
      ensures WasAnswered(now, id) <==> WasAnswered(answers, id) || id == a.id
    {
      if WasAnswered(answers, id) {
        var k :| 0 <= k < |answers| && answers[k].id == id;
        assert now[k].id == id;
      }
      assert now[|answers|] == a;
    }
  }

  // ---------------------------------------------------------------- what the invariant says to a reader

  /**
   Every chunk of a success belongs to the one answer of its connection and went out while
   the snapshot that the answer's certificate sees was still the one the answer was read from.
   */
  lemma {:induction false} SuccessSentUnderItsToken(s: State, maximum: nat, k: nat) returns (j: nat)
    requires StateOk(s, maximum) && k < |s.chunks| && s.chunks[k].outcome.Some? && s.chunks[k].outcome.value.Success?
    ensures j < |s.answers| && s.answers[j].id == s.chunks[k].id && s.answers[j].outcome == s.chunks[k].outcome.value
    ensures s.chunks[k].live == s.answers[j].snapshot == Some(Token(s.answers[j].outcome.value))
    ensures forall i :: 0 <= i < |s.answers| && s.answers[i].id == s.chunks[k].id ==> i == j
  {
    hide LiveOk;
    hide DoneOk;
    assert ChunkOk(s.answers, s.chunks[k]);
    j :| 0 <= j < |s.answers| && s.answers[j].id == s.chunks[k].id && s.answers[j].outcome == s.chunks[k].outcome.value;
    assert AnswerOk(s.answers[j]);
  }

  /** A completed connection delivered exactly its challenge and the one response that its answer was signed into. */
  lemma {:induction false} FinishedDeliveredItsAnswer(s: State, maximum: nat, id: Id) returns (j: nat)
    requires StateOk(s, maximum) && id in s.finished
    ensures j < |s.answers| && s.answers[j].id == id && !s.answers[j].outcome.Unanswered?
    ensures var c, response := s.finished[id], ResponseOf(s.answers[j].outcome);
            |c.hello| <= MAX_HELLO && |response| <= MAX_RESPONSE && c.delivered == Frame(c.hello) + Frame(response)
  {
    assert DoneAt(s.answers, s.next, id, s.finished[id]);
    hide StateOk;
    j :| 0 <= j < |s.answers| && s.answers[j].id == id && s.answers[j].outcome == s.finished[id].outcome.value;
  }

  // ---------------------------------------------------------------- whole runs of events

  function Smaller(a: nat, b: nat): (r: nat)
    ensures r <= a && r <= b && (r == a || r == b)
  {
    if a <= b then a else b
  }

  /** The accept loop takes sockets one by one. */
  ghost function ArrivedAll(s: State, sockets: seq<Socket>, maximum: nat): (t: State)
    requires StateOk(s, maximum)
    ensures StateOk(t, maximum)
  {
    if sockets == [] then s
    else
      ArrivalKeeps(ArrivedAll(s, sockets[..|sockets| - 1], maximum), sockets[|sockets| - 1], maximum);
      Arrived(ArrivedAll(s, sockets[..|sockets| - 1], maximum), sockets[|sockets| - 1], maximum)
  }

  /** One iteration of the event loop in `poll`. */
  ghost function Handled(s: State, e: Event, maximum: nat, chunk: nat): (t: State)
    requires StateOk(s, maximum)
    ensures StateOk(t, maximum)
  {
    match e
    case Arrivals(sockets) => ArrivedAll(s, sockets[..Smaller(maximum + 1, |sockets|)], maximum)
    case Ready(id, late, blocked, bytes, source, room) =>
      if id !in s.connections then s
      else
        var c := s.connections[id];
        LiveConnection(s, id, maximum);
        if late then
          DropKeeps(s, id, maximum);
          Expired(s, id)
        else if c.phase.Request? then
          ReadKeepsRoom(c);
          if blocked then s
          else
            ReadKeeps(s, id, bytes[..Smaller(|bytes|, c.want - |c.incoming|)], source, maximum);
            AfterRead(s, id, bytes[..Smaller(|bytes|, c.want - |c.incoming|)], source)
        else if blocked && !Stale(c, LiveToken(source, c.certificate)) then s
        else
          WriteKeeps(s, id, source, Smaller(room, Smaller(chunk, |c.output| - c.sent)), maximum);
          AfterWrite(s, id, source, Smaller(room, Smaller(chunk, |c.output| - c.sent)))
  }

  lemma {:induction false} ReadKeepsRoom(c: Connection)
    requires ConnectionOk(c) && c.phase.Request?
    ensures |c.incoming| < c.want && c.want >= 4
  {
  }

  ghost function HandledAll(s: State, events: seq<Event>, maximum: nat, chunk: nat): (t: State)
    requires StateOk(s, maximum)
    ensures StateOk(t, maximum)
  {
    if events == [] then s
    else Handled(HandledAll(s, events[..|events| - 1], maximum, chunk), events[|events| - 1], maximum, chunk)
  }

  // ---------------------------------------------------------------- what each event does

  /** A connection past its deadline goes, and is counted as expired; a closed one is not looked at. */
  lemma {:induction false} LateEventDoes(s: State, e: Event, maximum: nat, chunk: nat)
    requires StateOk(s, maximum) && e.Ready? && (e.late || e.id !in s.connections)
    ensures var t := Handled(s, e, maximum, chunk);
            && t.connections == s.connections - {e.id} && t.next == s.next
            && t.answers == s.answers && t.chunks == s.chunks && t.finished == s.finished
            && t.counts == if e.id !in s.connections then s.counts
                           else s.counts.(dropped := s.counts.dropped + 1, expired := s.counts.expired + 1)
  {
    hide StateOk;
    if e.id !in s.connections {
      assert s.connections - {e.id} == s.connections;
    }
  }

  /** What reading `b` on a connection leads to, told from the bytes received so far. */
  datatype Reading = Goes | Waits | Decided(outcome: Outcome)

  ghost predicate ReadingIs(c: Connection, b: Bytes, source: Source, r: Reading) {
    var got := c.received + b;
    match r
    case Goes => b == [] || (|got| == 4 && !(0 < Length(got) <= MAX_REQUEST))
    case Waits => b != [] && (|got| < 4 || |got| < 4 + Length(got[..4])) && (|got| == 4 ==> 0 < Length(got) <= MAX_REQUEST)
    case Decided(o) => b != [] && |got| > 4 && |got| == 4 + Length(got[..4]) && o == Decide(source, c.hello, got[4..])
  }

  lemma {:induction false} ReadingTells(c: Connection, b: Bytes, source: Source, r: Reading)
    requires ConnectionOk(c) && c.phase.Request? && (b != [] ==> Fragment(c, b)) && ReadingIs(c, b, source, r)
    ensures var step := ReadStep(c, b, source);
            match r
            case Goes => step.Gone? && !step.complete && !Rejects(c, b, source)
            case Waits =>
              step.Keep? && step.c.phase.Request? && step.c.received == c.received + b && step.c.hello == c.hello && !Rejects(c, b, source)
            case Decided(o) =>
              && (Rejects(c, b, source) <==> !o.Success?)
              && (step.Gone? <==> o.Unanswered? || !Framable(ResponseOf(o)))
              && (step.Keep? ==> step.c.phase.Response? && step.c.outcome == Some(o) && step.c.received == c.received + b)
  {
    hide Decide;
    hide Frame;
    if b != [] {
      AbsorbStep(c, b);
      var got := c.received + b;
      assert |got| == 4 ==> got[..4] == got;
    }
  }

  /** Every read is of exactly one of the three kinds. */
  lemma {:induction false} OneReading(c: Connection, b: Bytes, source: Source)
    requires ConnectionOk(c) && c.phase.Request? && (b != [] ==> Fragment(c, b))
    ensures exists r :: ReadingIs(c, b, source, r) && forall q :: ReadingIs(c, b, source, q) ==> q == r
  {
    hide Decide;
    hide Length;
    var got := c.received + b;
    var r :=
      if b == [] || (|got| == 4 && !(0 < Length(got) <= MAX_REQUEST)) then Goes
      else if |got| < 4 || |got| < 4 + Length(got[..4]) then Waits
      else Decided(Decide(source, c.hello, got[4..]));
    assert |got| == 4 ==> got[..4] == got;
    assert |c.received| >= 4 ==> got[..4] == c.received[..4];
    assert ReadingIs(c, b, source, r);
  }

  /** Everything about the connections other than `id` and about finished ones, ids and chunks is as it was. */
  ghost predicate OnlyTouches(s: State, t: State, id: Id) {
    && t.next == s.next && t.connections - {id} == s.connections - {id} && t.finished - {id} == s.finished - {id}
    && s.answers <= t.answers && s.chunks <= t.chunks
  }

  /** A read at the end of the stream, or of a wrong length, drops the connection and nothing more. */
  lemma {:induction false} ReadGoes(s: State, id: Id, b: Bytes, source: Source)
    requires id in s.connections && ConnectionOk(s.connections[id]) && s.connections[id].phase.Request?
    requires (b != [] ==> Fragment(s.connections[id], b)) && ReadingIs(s.connections[id], b, source, Goes)
    ensures var t := AfterRead(s, id, b, source);
            && OnlyTouches(s, t, id) && id !in t.connections && t.answers == s.answers && t.finished == s.finished && t.chunks == s.chunks
            && t.counts == s.counts.(dropped := s.counts.dropped + 1)
  {
    hide ConnectionOk;
    hide Fragment;
    hide ReadStep;
    hide Rejects;
    hide Decide;
    ReadingTells(s.connections[id], b, source, Goes);
    hide ReadingIs;
  }

  /** While the frame is incomplete a read only adds to what was received. */
  lemma {:induction false} ReadWaits(s: State, id: Id, b: Bytes, source: Source)
    requires id in s.connections && ConnectionOk(s.connections[id]) && s.connections[id].phase.Request?
    requires (b != [] ==> Fragment(s.connections[id], b)) && ReadingIs(s.connections[id], b, source, Waits)
    ensures var t := AfterRead(s, id, b, source);
            && OnlyTouches(s, t, id) && id in t.connections && t.answers == s.answers && t.finished == s.finished && t.chunks == s.chunks
            && t.counts == s.counts && t.connections[id].phase.Request?
            && t.connections[id].received == s.connections[id].received + b && t.connections[id].hello == s.connections[id].hello
  {
    hide ConnectionOk;
    hide Fragment;
    hide ReadStep;
    hide Rejects;
    hide Decide;
    ReadingTells(s.connections[id], b, source, Waits);
    hide ReadingIs;
  }

  /**
   A complete request is decided and answered once, counted as rejected exactly if it is not
   a success, and dropped exactly if no response can be signed or framed.
   */
  lemma {:induction false} ReadDecides(s: State, id: Id, b: Bytes, source: Source, o: Outcome)
    requires id in s.connections && ConnectionOk(s.connections[id]) && s.connections[id].phase.Request?
    requires (b != [] ==> Fragment(s.connections[id], b)) && ReadingIs(s.connections[id], b, source, Decided(o))
    ensures var t := AfterRead(s, id, b, source);
            && OnlyTouches(s, t, id) && t.finished == s.finished && t.chunks == s.chunks
            && t.counts.rejected == s.counts.rejected + (if o.Success? then 0 else 1)
            && (id in t.connections <==> !o.Unanswered? && Framable(ResponseOf(o)))
            && t.counts.dropped == s.counts.dropped + (if id in t.connections then 0 else 1)
            && t.counts == s.counts.(rejected := t.counts.rejected, dropped := t.counts.dropped)
    ensures var t := AfterRead(s, id, b, source);
            if id in t.connections then
              && t.connections[id].phase.Response? && t.connections[id].outcome == Some(o)
              && |t.answers| == |s.answers| + 1 && t.answers[|s.answers|].id == id && t.answers[|s.answers|].outcome == o
            else t.answers == s.answers
  {
    hide ConnectionOk;
    hide Fragment;
    hide ReadStep;
    hide Rejects;
    hide Decide;
    ReadingTells(s.connections[id], b, source, Decided(o));
    hide ReadingIs;
  }

  /** Whether the next chunk may not go out: the response is a success of another snapshot than the live one. */
  ghost predicate Outdated(c: Connection, source: Source) {
    c.outcome.Some? && c.outcome.value.Success? && LiveToken(source, c.certificate) != Some(Token(c.outcome.value.value))
  }

  lemma {:induction false} OutdatedIsStale(c: Connection, source: Source)
    requires ConnectionOk(c) && !c.phase.Request?
    ensures Outdated(c, source) <==> Stale(c, LiveToken(source, c.certificate))
  {
    hide Frame;
    hide Length;
  }

  /** An outdated success, or a socket that takes nothing, ends the connection; only the former counts as changed. */
  lemma {:induction false} WriteGoes(s: State, id: Id, source: Source, n: nat)
    requires id in s.connections && ConnectionOk(s.connections[id]) && !s.connections[id].phase.Request?
    requires s.connections[id].sent + n <= |s.connections[id].output| && (n == 0 || Outdated(s.connections[id], source))
    ensures var t := AfterWrite(s, id, source, n);
            && OnlyTouches(s, t, id) && id !in t.connections && t.answers == s.answers && t.finished == s.finished && t.chunks == s.chunks
            && t.counts == s.counts.(dropped := s.counts.dropped + 1,
                                     changed := s.counts.changed + if Outdated(s.connections[id], source) then 1 else 0)
  {
    OutdatedIsStale(s.connections[id], source);
    hide ConnectionOk;
    hide Outdated;
    hide LiveToken;
  }

  /** Otherwise the next bytes go out, on record, and the connection goes on, turns to its request, or is complete. */
  lemma {:induction false} WriteSends(s: State, id: Id, source: Source, n: nat)
    requires id in s.connections && ConnectionOk(s.connections[id]) && !s.connections[id].phase.Request?
    requires s.connections[id].sent + n <= |s.connections[id].output| && n > 0 && !Outdated(s.connections[id], source)
    ensures var t := AfterWrite(s, id, source, n);
            var c := s.connections[id];
            var bytes := c.output[c.sent..c.sent + n];
            && OnlyTouches(s, t, id) && t.answers == s.answers
            && |t.chunks| == |s.chunks| + 1 && t.chunks[|s.chunks|].id == id
            && t.chunks[|s.chunks|].bytes == bytes && t.chunks[|s.chunks|].outcome == c.outcome
            && (id in t.connections <==> c.sent + n < |c.output| || c.phase.Hello?)
            && (id in t.connections ==>
                  && t.connections[id].delivered == c.delivered + bytes && t.finished == s.finished && t.counts == s.counts
                  && if c.sent + n < |c.output| then t.connections[id].phase == c.phase && t.connections[id].sent == c.sent + n
                     else t.connections[id].phase.Request?)
            && (id !in t.connections ==>
                  && id in t.finished && t.finished[id].delivered == c.delivered + bytes
                  && t.counts == s.counts.(completed := s.counts.completed + 1))
  {
    OutdatedIsStale(s.connections[id], source);
    PhaseIsNotRequest(s.connections[id]);
    hide ConnectionOk;
    hide Outdated;
    hide LiveToken;
  }

  lemma {:induction false} PhaseIsNotRequest(c: Connection)
    requires !c.phase.Request?
    ensures c.phase.Hello? <==> !c.phase.Response?
  {
  }

  /** With sockets that can be set up, accepting fills the free places and turns the others away. */
  lemma {:induction false} ArrivalsFill(s: State, sockets: seq<Socket>, maximum: nat)
    requires StateOk(s, maximum) && forall k :: 0 <= k < |sockets| ==> sockets[k].ok && 1 <= |sockets[k].hello| <= MAX_HELLO
    ensures var t := ArrivedAll(s, sockets, maximum);
            var taken := Smaller(|sockets|, maximum - |s.connections|);
            && |t.connections| == |s.connections| + taken && t.next == s.next + taken
            && t.counts == s.counts.(accepted := s.counts.accepted + taken, overloaded := s.counts.overloaded + |sockets| - taken)
            && (forall id :: id in s.connections ==> id in t.connections && t.connections[id] == s.connections[id])
  {
    hide StateOk;
    hide Arrived;
    if sockets != [] {
      var n := |sockets| - 1;
      ArrivalsFill(s, sockets[..n], maximum);
      var t := ArrivedAll(s, sockets[..n], maximum);
      ArrivalTakes(t, sockets[n], maximum);
    }
    hide ArrivedAll;
  }

  /** One socket that can be set up: a place is taken under the next number, or the socket is turned away. */
  lemma {:induction false} ArrivalTakes(s: State, socket: Socket, maximum: nat)
    requires StateOk(s, maximum) && socket.ok && 1 <= |socket.hello| <= MAX_HELLO
    ensures |s.connections| <= maximum
    ensures var t := Arrived(s, socket, maximum);
            && s.next !in s.connections && (forall id :: id in s.connections ==> id in t.connections && t.connections[id] == s.connections[id])
            && if |s.connections| < maximum then
                 && |t.connections| == |s.connections| + 1 && t.next == s.next + 1
                 && t.counts == s.counts.(accepted := s.counts.accepted + 1)
                 && s.next in t.connections && t.connections[s.next].hello == socket.hello
                 && t.connections[s.next].phase.Hello? && t.connections[s.next].sent == 0
               else t == s.(counts := s.counts.(overloaded := s.counts.overloaded + 1))
  {
    FreshId(s, maximum);
    hide StateOk;
    hide Frame;
    Updated(s.connections, s.next, Accepted(socket.hello));
  }

  lemma {:induction false} FreshId(s: State, maximum: nat)
    requires StateOk(s, maximum)
    ensures s.next !in s.connections && |s.connections| <= maximum
  {
  }

  /** A socket that cannot be set up while there is room is rejected, and nothing else changes. */
  lemma {:induction false} BadArrivalIsRejected(s: State, socket: Socket, maximum: nat)
    requires |s.connections| < maximum && !(socket.ok && 1 <= |socket.hello| <= MAX_HELLO)
    ensures var t := Arrived(s, socket, maximum);
            t == s.(counts := t.counts) && t.counts == s.counts.(rejected := s.counts.rejected + 1)
  {
  }
}
