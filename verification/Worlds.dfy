/**
 The relay as a state machine: connections open and close, sockets deliver and take bytes in any order
 and in any pieces, and every message logged is an event of the tracking state.
 */
module Worlds {
  import opened Bytes
  import opened SocketBuffers
  import opened Wire
  import opened Tracking
  import opened MessageLoops
  import opened Passes
  import opened LoopRules
  import opened Relay

  datatype Link = Link(c: Conn, client: Dir, server: Dir)

  datatype World = World(p: Parser, links: map<nat, Link>, used: set<nat>, trace: seq<Event>)

  datatype Action =
    | Accept(id: nat)
    | Read(id: nat, side: Side, chunk: seq<byte>)
    | Write(id: nat, side: Side)
    | Close(id: nat)

  function NewLink(id: nat): Link { Link(NewConn(id, false, NewStore()), NewDir(), NewDir()) }

  function DirOf(k: Link, side: Side): Dir { if side.FromClient? then k.client else k.server }

  /** The client's direction when the connection opens: what it sent beyond its first message is being
      measured as another first message. */
  function AtOpening(d: Dir): Dir
    requires d.b.Valid()
  {
    d.(setup := |d.log|, lost := d.b.Unparsed() > 0, cuts := [d.b.Pending()])
  }

  function EventsOf(side: Side, id: nat, log: seq<Entry>): (es: seq<Event>)
    ensures |es| == |log|
  {
    seq(|log|, i requires 0 <= i < |log| =>
      if side.FromClient? then Request(id, log[i].msg, log[i].at) else Response(id, log[i].msg))
  }

  /** The events of a pass that logged `log`. What a read leaves in a client's buffer comes first, and so
      does an answer that opens a connection. */
  function Traced(side: Side, c: Conn, mem: seq<byte>, log: seq<Entry>): seq<Event> {
    if c.status.Open? then Opening(side, c.id, mem) + EventsOf(side, c.id, log)
    else if side.FromClient? || log == [] then []
    else [Established(c.id, c.byteswap, c.mem)] + EventsOf(side, c.id, log[1..])
  }

  function Opening(side: Side, id: nat, mem: seq<byte>): seq<Event> {
    if side.FromClient? then [Event.Received(id, mem)] else []
  }

  function AfterRead(k: Link, side: Side, m: Moved): Link
    requires k.client.b.Valid()
  {
    if side.FromClient? then k.(c := m.c, client := m.d)
    else k.(c := m.c, server := m.d,
            client := if !k.c.status.Open? && m.c.status.Open? then AtOpening(k.client) else k.client)
  }

  /** One event. `None` when the event loop does not ask for it, or when the process ends. */
  function Act(w: World, a: Action): Option<World> {
    match a
    case Accept(id) =>
      if id in w.used then None else Some(w.(links := w.links[id := NewLink(id)], used := w.used + {id}))
    case Read(id, side, chunk) =>
      if id !in w.links then None
      else
        var k := w.links[id];
        var d := DirOf(k, side);
        if !d.b.Valid() || !k.client.b.Valid() then None
        else
          var m := Receive(side, w.p, k.c, d, chunk);
          if m.None? || |m.value.d.log| < |d.log| then None
          else
            var log := m.value.d.log[|d.log|..];
            Some(w.(p := m.value.p, links := w.links[id := AfterRead(k, side, m.value)],
                    trace := w.trace + Traced(side, k.c, m.value.c.mem, log)))
    case Write(id, side) =>
      if id !in w.links then None
      else
        var k := w.links[id];
        if !DirOf(k, side).b.Valid() then None
        else
          var d := Flush(DirOf(k, side));
          if d.None? then None
          else Some(w.(links := w.links[id := if side.FromClient? then k.(client := d.value) else k.(server := d.value)]))
    case Close(id) =>
      Some(w.(links := w.links - {id}, trace := w.trace + [Gone(id)]))
  }

  function Begin(p: Parser): World { World(p, map[], {}, []) }

  function ActAll(w: World, actions: seq<Action>): Option<World> {
    if actions == [] then Some(w)
    else
      var before := ActAll(w, actions[..|actions| - 1]);
      if before.None? then None else Act(before.value, actions[|actions| - 1])
  }

  // ---- one link ----

  /** A connection that is not open yet has logged no request and no response. */
  predicate Waiting(k: Link) {
    && k.c == NewConn(k.c.id, k.c.byteswap, k.c.mem) && k.server.log == [] && k.client.setup == k.server.setup == 0
    && !k.client.lost && !k.server.lost && !k.client.cropped && !k.server.cropped && Unechoed(k.client)
  }

  /** What has been parsed of a client's first bytes is at least as long as any header, and so is what is
      waited for. */
  predicate Unechoed(d: Dir) {
    && !d.echoed && (d.b.parsed > 0 ==> d.b.parsed >= INITIATION_HEADER_SZ)
    && (d.b.next.Some? ==> d.b.next.value >= INITIATION_HEADER_SZ)
  }

  predicate LinkHolds(host: ByteOrder, id: nat, k: Link) {
    && k.c.id == id && Live(k.c) && k.c.mem == k.client.b.store
    && Conserves(FromClient, k.client) && Conserves(FromServer, k.server)
    && (!k.c.status.Open? ==> Waiting(k))
    && (k.c.status.Open? ==>
          && Relay.Framed(FromClient, OrderOf(host, k.c.byteswap), k.client)
          && Relay.Framed(FromServer, OrderOf(host, k.c.byteswap), k.server)
          && k.server.setup == 1)
  }

  lemma NewLinkHolds(host: ByteOrder, id: nat)
    ensures LinkHolds(host, id, NewLink(id))
  {
    NewDirConserves(FromClient);
    NewDirConserves(FromServer);
  }

  lemma NewDirConserves(side: Side)
    ensures Conserves(side, NewDir())
  {
    var d := NewDir();
    assert d.b.Data() == [] && d.b.Pending() == [] && Msgs(d.log) == [] && Outs(d.log) == [];
    assert d.log[..d.delivered] == [];
  }

  lemma OpeningFramed(side: Side, o: ByteOrder, d: Dir)
    requires Conserves(side, d) && !d.echoed && !d.cropped
    ensures Relay.Framed(side, o, AtOpening(d)) && Conserves(side, AtOpening(d))
  {
    var d' := AtOpening(d);
    assert d'.log[d'.setup..] == [] && d'.log[..d'.setup] == d.log;
    FlattenOne(d.b.Pending());
    if d.b.Unparsed() == 0 {
      assert d.b.Pending() == [];
    }
  }

  lemma WaitingParsesNothing(k: Link)
    requires Waiting(k) && Conserves(FromServer, k.server)
    ensures k.server.b.parsed == 0 && !Stuck(k.server.b)
  {
    assert Flatten(Outs(k.server.log)) == [];
    assert |k.server.b.Data()[..k.server.b.parsed]| == k.server.b.parsed;
  }

  // ---- a client's first messages ----

  function Unanswered(p: Parser, c: Conn): State { (p', c': Conn) => p' == p && c' == c.(byteswap := c'.byteswap) }

  lemma UnansweredKept(p: Parser, c: Conn)
    requires c.status.Unestablished?
    ensures Preserves(CLIENT_RULES, Unanswered(p, c), (e: Entry) => |e.msg| >= INITIATION_HEADER_SZ)
    ensures MeasuresAtLeast(CLIENT_RULES, Unanswered(p, c), INITIATION_HEADER_SZ)
  {
  }

  lemma ClientStaysUnanswered(p: Parser, c: Conn, d: Dir, chunk: seq<byte>)
    requires !c.status.Open? && Conserves(FromClient, d) && Live(c) && Unechoed(d)
    requires Receive(FromClient, p, c, d, chunk).Some?
    ensures var m := Receive(FromClient, p, c, d, chunk).value;
      && m.p == p && m.c == c.(byteswap := m.c.byteswap, mem := m.c.mem) && m.d.setup == d.setup && !m.d.lost
      && m.d.cropped == d.cropped && Unechoed(m.d)
  {
    var b := Filled(d.b, chunk).value;
    var c' := Refreshed(FromClient, c, b);
    FilledAppends(d.b, HeaderOf(FromClient), chunk);
    UnansweredKept(p, c');
    PassPreserves(CLIENT_RULES, Unanswered(p, c'), (e: Entry) => |e.msg| >= INITIATION_HEADER_SZ, p, c', b, 0);
    PassMeasures(CLIENT_RULES, Unanswered(p, c'), (e: Entry) => |e.msg| >= INITIATION_HEADER_SZ, INITIATION_HEADER_SZ, p, c', b, 0);
    if Stuck(d.b) {
      StuckReceives(FromClient, p, c, d, chunk);
    } else {
      var r := Pass(CLIENT_RULES, p, c', b, 0).value;
      ClientIsPlain();
      PassTakes(CLIENT_RULES, p, c', b, 0);
      if r.log != [] {
        assert r.log[0] in r.log && Flatten(Msgs(r.log)) == r.log[0].msg + Flatten(Msgs(r.log)[1..]);
      } else {
        assert Flatten(Msgs(r.log)) == [];
      }
    }
  }

  // ---- the server's answer ----

  /** What a pass over a server's first bytes does: nothing yet, or it opens the connection and goes on. */
  predicate Answered(p: Parser, c: Conn, d: Dir, m: Moved)
  {
    && d.log == [] && m.d.b.Valid() && m.d.cropped == d.cropped
    && if m.d.log == [] then m.p == p && m.c == c && !m.d.lost && m.d.setup == d.setup
       else
         && m.d.setup == 1 && m.c.status.Open? && m.d.log[0].out == m.d.log[0].msg
         && Logs(SERVER_RULES, p, c.(status := Open), m.d.log[1..]) == Some((m.p, m.c))
         && Kept(p, c.(status := Open), m.p, m.c)
         && AllWellFormed(FromServer, Order(p, c), Msgs(m.d.log[1..]))
         && m.d.b.parsed > 0 && m.d.cuts == [Behind(m.d.received, m.d.log, 1)]
  }

  lemma AnswerOpens(p: Parser, c: Conn, b: Buffer, r: Passed)
    requires c.status.Unestablished? && b.Valid() && Aligned(b, 0)
    requires Pass(SERVER_RULES, p, c, b, 0) == Some(r) && r.log != []
    ensures Logs(SERVER_RULES, p, c.(status := Open), r.log[1..]) == Some((r.p, r.c))
    ensures Kept(p, c.(status := Open), r.p, r.c) && AllWellFormed(FromServer, Order(p, c), Msgs(r.log[1..]))
    ensures r.log[0].out == r.log[0].msg
  {
    var c', step := PassFirst(SERVER_RULES, p, c, b, 0);
    AnswerHandled(p, c, b, c', r.log[0], step);
    var next := step.b.written + step.b.parsed;
    BothAreQuiet(FromServer);
    PassLogs(SERVER_RULES, step.p, step.c, step.b, next);
    PassKeeps(FromServer, step.p, step.c, step.b, next);
  }

  lemma AnswerHandled(p: Parser, c: Conn, b: Buffer, c': Conn, e: Entry, step: Passed)
    requires c.status.Unestablished? && Measure(SERVER_RULES, p, c, b, 0).Some? && c' == Measure(SERVER_RULES, p, c, b, 0).value.c
    requires SERVER_RULES.handle(p, c', e.msg, e.at) == Some(Logged(step.p, step.c, e.out))
    ensures step.p == p && step.c == c.(status := Open) && e.out == e.msg
  {
  }

  lemma ServerAnswers(p: Parser, c: Conn, d: Dir, chunk: seq<byte>)
    requires c.status.Unestablished? && d.log == [] && !d.lost && Conserves(FromServer, d) && !Stuck(d.b)
    requires Receive(FromServer, p, c, d, chunk).Some?
    ensures Answered(p, c, d, Receive(FromServer, p, c, d, chunk).value)
  {
    var b := Filled(d.b, chunk).value;
    FilledAppends(d.b, HeaderOf(FromServer), chunk);
    ReadsBehindNothing(d.b, HeaderOf(FromServer), chunk);
    ReceiveSettles(FromServer, p, c, d, chunk);
    var r := Pass(SERVER_RULES, p, c, b, 0).value;
    assert d.log + r.log == r.log;
    if r.log == [] {
      PassNothing(SERVER_RULES, p, c, b, 0);
    } else {
      AnswerOpens(p, c, b, r);
      PassSplits(SERVER_RULES, p, c, b, 0);
      SomethingIsParsed(b, r);
    }
  }

  // ---- what every read keeps ----

  lemma OpenReadHolds(p: Parser, id: nat, k: Link, side: Side, chunk: seq<byte>)
    requires LinkHolds(p.host, id, k) && k.c.status.Open? && Receive(side, p, k.c, DirOf(k, side), chunk).Some?
    ensures var m := Receive(side, p, k.c, DirOf(k, side), chunk).value;
      LinkHolds(p.host, id, AfterRead(k, side, m)) && Kept(p, k.c.(mem := m.c.mem), m.p, m.c)
  {
    ReceiveConserves(side, p, k.c, DirOf(k, side), chunk);
    ReceiveFrames(side, p, k.c, DirOf(k, side), chunk);
    ReceiveKeeps(side, p, k.c, DirOf(k, side), chunk);
  }

  lemma FirstReadHolds(p: Parser, id: nat, k: Link, chunk: seq<byte>)
    requires LinkHolds(p.host, id, k) && !k.c.status.Open? && Receive(FromClient, p, k.c, k.client, chunk).Some?
    ensures var m := Receive(FromClient, p, k.c, k.client, chunk).value;
      LinkHolds(p.host, id, AfterRead(k, FromClient, m)) && m.p == p && !m.c.status.Open?
  {
    ReceiveConserves(FromClient, p, k.c, k.client, chunk);
    ReceiveKeeps(FromClient, p, k.c, k.client, chunk);
    ClientStaysUnanswered(p, k.c, k.client, chunk);
  }

  lemma AnswerHolds(p: Parser, id: nat, k: Link, chunk: seq<byte>)
    requires LinkHolds(p.host, id, k) && !k.c.status.Open? && Receive(FromServer, p, k.c, k.server, chunk).Some?
    ensures var m := Receive(FromServer, p, k.c, k.server, chunk).value;
      LinkHolds(p.host, id, AfterRead(k, FromServer, m)) && Answered(p, k.c, k.server, m)
  {
    var m := Receive(FromServer, p, k.c, k.server, chunk).value;
    ReceiveConserves(FromServer, p, k.c, k.server, chunk);
    WaitingParsesNothing(k);
    ServerAnswers(p, k.c, k.server, chunk);
    if m.d.log != [] {
      OpeningFramed(FromClient, Order(p, k.c), k.client);
      OpenedFramed(Order(p, k.c), m.d);
    }
  }

  lemma OpenedFramed(o: ByteOrder, d: Dir)
    requires Conserves(FromServer, d) && d.setup == 1 <= |d.log| && d.b.parsed > 0
    requires d.cuts == [Behind(d.received, d.log, 1)] && !d.cropped
    requires AllWellFormed(FromServer, o, Msgs(d.log[1..]))
    ensures Relay.Framed(FromServer, o, d)
  {
    assert Msgs(d.log) == Msgs(d.log[..1]) + Msgs(d.log[1..]);
    FlattenAppend(Msgs(d.log[..1]), Msgs(d.log[1..]));
    FlattenOne(d.cuts[0]);
    if !Stuck(d.b) {
      assert d.b.Pending() == [];
    }
  }

  lemma FlushHolds(host: ByteOrder, id: nat, k: Link, side: Side)
    requires LinkHolds(host, id, k) && Flush(DirOf(k, side)).Some?
    ensures var d := Flush(DirOf(k, side)).value;
      LinkHolds(host, id, if side.FromClient? then k.(client := d) else k.(server := d))
  {
    FlushConserves(side, DirOf(k, side));
    if k.c.status.Open? {
      FlushFrames(side, OrderOf(host, k.c.byteswap), DirOf(k, side));
    }
  }
}
