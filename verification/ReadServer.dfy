/** The class `Server` of `product/wp04/exchange.py`, with its connections and counters updated in place. */
module ReadServer {
  import opened Ordering
  import opened Answering
  import opened Server
  import opened ServerLoop

  const START := State(map[], Counts(0, 0, 0, 0, 0, 0, 0), 0, [], [], map[])

  /** All connections in `late` expire, in any order. */
  ghost function ExpiredAll(s: State, late: set<Id>): State
    requires late <= s.connections.Keys
  {
    s.(connections := s.connections - late,
       counts := s.counts.(expired := s.counts.expired + |late|, dropped := s.counts.dropped + |late|))
  }

  ghost function DroppedAll(s: State, gone: set<Id>): State
    requires gone <= s.connections.Keys
  {
    s.(connections := s.connections - gone, counts := s.counts.(dropped := s.counts.dropped + |gone|))
  }

  /** Connections are named by the order of their acceptance; `answers`, `chunks` and `finished` are history. */
  class ReadServer {
    const maxConnections: nat
    const sendChunk: nat
    var connections: map<Id, Connection>
    var counts: Counts
    var next: Id
    var closed: bool
    ghost var answers: seq<Answered>
    ghost var chunks: seq<Chunk>
    ghost var finished: map<Id, Connection>

    ghost function View(): State
      reads this
    {
      State(connections, counts, next, answers, chunks, finished)
    }

    ghost predicate Valid()
      reads this
    {
      StateOk(View(), maxConnections) && (closed ==> connections == map[])
    }

    constructor (maxConnections: nat, sendChunk: nat)
      requires 1 <= maxConnections <= 8 && 1 <= sendChunk <= 65536
      ensures Valid() && View() == START && !closed
      ensures this.maxConnections == maxConnections && this.sendChunk == sendChunk
    {
      this.maxConnections, this.sendChunk := maxConnections, sendChunk;
      connections, counts, next, closed := map[], START.counts, 0, false;
      answers, chunks, finished := [], [], map[];
    }

    /** `_drop`. */
    method Drop(id: Id, complete: bool)
      requires id in connections
      modifies this
      ensures View() == if complete then Completed(old(View()), id, old(connections[id])) else Dropped(old(View()), id)
      ensures closed == old(closed)
    {
      if complete {
        finished := finished[id := connections[id]];
        counts := counts.(completed := counts.completed + 1);
      } else {
        counts := counts.(dropped := counts.dropped + 1);
      }
      connections := connections - {id};
    }

    /** `_accept`: at most one socket more than the limit is looked at. */
    method Accept(sockets: seq<Socket>)
      requires Valid() && !closed
      modifies this
      ensures Valid() && closed == old(closed)
      ensures View() == ArrivedAll(old(View()), sockets[..Smaller(maxConnections + 1, |sockets|)], maxConnections)
    {
      hide StateOk;
      hide Arrived;
      ghost var before := View();
      var k := 0;
      while k < maxConnections + 1 && k < |sockets|
        invariant 0 <= k <= Smaller(maxConnections + 1, |sockets|)
        invariant !closed && StateOk(View(), maxConnections)
        invariant View() == ArrivedAll(before, sockets[..k], maxConnections)
      {
        assert sockets[..k + 1][..k] == sockets[..k];
        ArrivalKeeps(View(), sockets[k], maxConnections);
        AcceptOne(sockets[k]);
        k := k + 1;
      }
    }

    method AcceptOne(socket: Socket)
      modifies this
      ensures View() == Arrived(old(View()), socket, maxConnections) && closed == old(closed)
    {
      if |connections| >= maxConnections {
        counts := counts.(overloaded := counts.overloaded + 1);
        return;
      }
      if socket.ok && 1 <= |socket.hello| <= MAX_HELLO {
        connections := connections[next := Accepted(socket.hello)];
        next := next + 1;
        counts := counts.(accepted := counts.accepted + 1);
      } else {
        counts := counts.(rejected := counts.rejected + 1);
      }
    }

    /** `_read`; when it raises, the event loop drops the connection. */
    method Read(id: Id, b: Bytes, source: Source) returns (raised: bool)
      requires id in connections && ConnectionOk(connections[id]) && connections[id].phase.Request?
      modifies this
      ensures closed == old(closed)
      ensures raised ==> id in connections && AfterRead(old(View()), id, b, source) == Dropped(View(), id)
      ensures !raised ==> View() == AfterRead(old(View()), id, b, source)
    {
      hide Length;
      hide Frame;
      hide Decide;
      if b == [] {
        Drop(id, false);
        return false;
      }
      var c := connections[id];
      c := c.(incoming := c.incoming + b, received := c.received + b);
      connections := connections[id := c];
      if |c.incoming| != c.want {
        return false;
      }
      if c.want == 4 {
        var n := Length(c.incoming);
        if !(0 < n <= MAX_REQUEST) {
          assert connections - {id} == old(connections) - {id};
          return true;
        }
        connections := connections[id := c.(want := 4 + n)];
        assert connections == old(connections)[id := c.(want := 4 + n)];
        return false;
      }
      raised := Answer(id, source, old(connections));
    }

    /** The part of `_read` from a whole request on: check it, answer it, sign and frame the response. */
    method Answer(id: Id, source: Source, ghost before: map<Id, Connection>) returns (raised: bool)
      requires id in connections && |connections[id].incoming| >= 4 && connections[id].certificate.None?
      requires id in before && connections == before[id := connections[id]]
      modifies this
      ensures closed == old(closed)
      ensures var s, c := old(View()), old(connections[id]);
              var o := Decide(source, c.hello, c.incoming[4..]);
              var t := if o.Success? then s else s.(counts := s.counts.(rejected := s.counts.rejected + 1));
              if raised then (o.Unanswered? || !Framable(ResponseOf(o))) && id in connections
                             && Dropped(View(), id) == Dropped(t.(connections := before), id)
              else
                !o.Unanswered? && Framable(ResponseOf(o)) &&
                var d := c.(output := Frame(ResponseOf(o)), sent := 0, incoming := [], phase := Response,
                            certificate := CertificateOf(o), guard := GuardOf(o), answered := c.answered + 1, outcome := Some(o));
                View() == t.(connections := before[id := d], answers := s.answers + [AnswerOf(id, d, source)])
    {
      hide Length;
      hide Frame;
      var c := connections[id];
      var raw := c.incoming[4..];
      var response: Option<Bytes> := None;
      var code := Unsigned;
      match source.check(c.hello, raw) {
        case Denied(why) =>
          code := why;
        case Checked(certificate, request) =>
          var view := source.view(certificate);
          if view.None? {
            code := Unavailable;
          } else {
            match AnswerTo(view.value, request) {
              case StaleView => code := StaleRead;
              case InvalidRequest => code := Invalid;
              case NotObserved => code := NotSeen;
              case Given(value) =>
                c := c.(certificate := Some(certificate), guard := Some(Token(value)));
                response := source.sign(c.hello, raw, Yes(value));
            }
          }
      }
      if response.None? {
        c := c.(guard := None);
        counts := counts.(rejected := counts.rejected + 1);
        response := source.sign(c.hello, raw, No(code));
      }
      if response.None? || !Framable(response.value) {
        assert connections - {id} == before - {id};
        return true;
      }
      c := c.(output := Frame(response.value), sent := 0, incoming := [], phase := Response,
              answered := c.answered + 1, outcome := Some(Decide(source, c.hello, raw)));
      connections := connections[id := c];
      assert connections == before[id := c];
      answers := answers + [AnswerOf(id, c, source)];
      return false;
    }

    /** `_write`: the guard is compared before every chunk; `room` is what the kernel takes. */
    method Write(id: Id, source: Source, blocked: bool, room: nat)
      requires id in connections && connections[id].sent <= |connections[id].output|
      modifies this
      ensures closed == old(closed)
      ensures View() ==
              (var c := old(connections[id]);
               if blocked && !Stale(c, LiveToken(source, c.certificate)) then old(View())
               else AfterWrite(old(View()), id, source, Smaller(room, Smaller(sendChunk, |c.output| - c.sent))))
    {
      var c := connections[id];
      var live := LiveToken(source, c.certificate);
      if Stale(c, live) {
        counts := counts.(changed := counts.changed + 1);
        Drop(id, false);
        return;
      }
      if blocked {
        return;
      }
      var n := Smaller(room, Smaller(sendChunk, |c.output| - c.sent));
      if n == 0 {
        Drop(id, false);
        return;
      }
      chunks := chunks + [ChunkOf(id, c, source, n)];
      c := c.(sent := c.sent + n, delivered := c.delivered + c.output[c.sent..c.sent + n]);
      connections := connections[id := c];
      if c.sent < |c.output| {
        return;
      }
      if c.phase.Response? {
        assert connections - {id} == old(connections) - {id};
        Drop(id, true);
        return;
      }
      connections := connections[id := c.(output := [], sent := 0, phase := Request)];
      assert connections == old(connections)[id := c.(output := [], sent := 0, phase := Request)];
    }

    /** One ready descriptor of the event loop. */
    method Handle(e: Event)
      requires Valid() && !closed
      modifies this
      ensures Valid() && !closed
      ensures View() == Handled(old(View()), e, maxConnections, sendChunk)
    {
      hide StateOk;
      hide AfterRead;
      hide AfterWrite;
      hide ConnectionOk;
      hide Collecting;
      ghost var after := Handled(View(), e, maxConnections, sendChunk);
      match e
      case Arrivals(sockets) =>
        Accept(sockets);
      case Ready(id, late, blocked, bytes, source, room) =>
        if id !in connections {
          return;
        }
        var c := connections[id];
        LiveConnection(View(), id, maxConnections);
        if late {
          counts := counts.(expired := counts.expired + 1);
          Drop(id, false);
        } else if c.phase.Request? {
          ReadKeepsRoom(c);
          if !blocked {
            var raised := Read(id, bytes[..Smaller(|bytes|, c.want - |c.incoming|)], source);
            if raised {
              Drop(id, false);
            }
          }
        } else {
          WriteKeepsRoom(c);
          Write(id, source, blocked, room);
        }
    }

    /** `poll`: connections past their deadline go first, then the ready descriptors in order. */
    method Poll(late: set<Id>, events: seq<Event>)
      requires Valid() && !closed && late <= connections.Keys
      modifies this
      ensures Valid() && !closed
      ensures StateOk(ExpiredAll(old(View()), late), maxConnections)
      ensures View() == HandledAll(ExpiredAll(old(View()), late), events, maxConnections, sendChunk)
    {
      hide StateOk;
      Expire(late);
      HandleAll(events);
    }

    method Expire(late: set<Id>)
      requires Valid() && !closed && late <= connections.Keys
      modifies this
      ensures Valid() && !closed && View() == ExpiredAll(old(View()), late)
    {
      hide StateOk;
      hide ExpiredAll;
      ghost var before := View();
      var rest := late;
      NoneExpired(before);
      assert late - rest == {};
      while rest != {}
        invariant rest <= late && !closed && StateOk(View(), maxConnections)
        invariant View() == ExpiredAll(before, late - rest)
      {
        var id :| id in rest;
        ExpireNext(before, late, rest, id);
        DropKeeps(View(), id, maxConnections);
        counts := counts.(expired := counts.expired + 1);
        Drop(id, false);
        rest := rest - {id};
      }
      assert late - {} == late;
    }

    method HandleAll(events: seq<Event>)
      requires Valid() && !closed
      modifies this
      ensures Valid() && !closed && View() == HandledAll(old(View()), events, maxConnections, sendChunk)
    {
      hide StateOk;
      hide Handled;
      ghost var middle := View();
      var k := 0;
      while k < |events|
        invariant 0 <= k <= |events| && !closed && StateOk(View(), maxConnections)
        invariant View() == HandledAll(middle, events[..k], maxConnections, sendChunk)
      {
        assert events[..k + 1][..k] == events[..k];
        Handle(events[k]);
        k := k + 1;
      }
      assert events[..k] == events;
    }

    /** `close`: every live connection is dropped, once. */
    method Close()
      requires Valid()
      modifies this
      ensures Valid() && closed
      ensures View() == if old(closed) then old(View()) else DroppedAll(old(View()), old(connections.Keys))
      ensures counts.accepted == counts.completed + counts.dropped
    {
      if closed {
        return;
      }
      ghost var before := View();
      var rest := connections.Keys;
      assert connections - {} == connections;
      while rest != {}
        invariant rest == connections.Keys && rest <= before.connections.Keys
        invariant !closed && StateOk(View(), maxConnections)
        invariant View() == DroppedAll(before, before.connections.Keys - rest)
      {
        var id :| id in rest;
        DropOne(before, rest, id);
        DropKeeps(View(), id, maxConnections);
        Drop(id, false);
        rest := rest - {id};
      }
      assert before.connections.Keys - {} == before.connections.Keys;
      closed := true;
    }
  }

  lemma {:induction false} ExpireNext(s: State, late: set<Id>, rest: set<Id>, id: Id)
    requires late <= s.connections.Keys && rest <= late && id in rest
    ensures id in ExpiredAll(s, late - rest).connections
    ensures Expired(ExpiredAll(s, late - rest), id) == ExpiredAll(s, late - (rest - {id}))
  {
  }

  lemma {:induction false} NoneExpired(s: State)
    ensures ExpiredAll(s, {}) == s
  {
  }

  lemma {:induction false} DropOne(s: State, rest: set<Id>, id: Id)
    requires rest <= s.connections.Keys && id in rest
    ensures Dropped(DroppedAll(s, s.connections.Keys - rest), id) == DroppedAll(s, s.connections.Keys - (rest - {id}))
  {
  }

  lemma {:induction false} WriteKeepsRoom(c: Connection)
    requires ConnectionOk(c) && !c.phase.Request?
    ensures c.sent < |c.output|
  {
  }
}
