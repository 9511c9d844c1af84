/**
 What holds in every state the relay can reach, over all connections, interleavings and chunkings.
 */
module WorldRuns {
  import opened Bytes
  import opened Wire
  import opened Tracking
  import opened Histories
  import opened MessageLoops
  import opened Passes
  import opened LoopRules
  import opened Relay
  import opened Worlds

  ghost predicate LinksHold(p0: Parser, w: World) {
    && w.p.host == p0.host && w.p.allowed == p0.allowed
    && w.links.Keys <= w.used
    && forall id {:trigger LinkHolds(p0.host, id, w.links[id])} :: id in w.links ==> LinkHolds(p0.host, id, w.links[id])
  }

  /** The tracked connections are the open ones. */
  predicate Tracks(s: System, w: World) {
    && s.p == w.p && s.used <= w.used && s.conns.Keys <= w.links.Keys
    && forall id <- w.links :: TracksLink(s, id, w.links[id].c)
  }

  predicate TracksLink(s: System, id: nat, c: Conn) {
    if c.status.Open? then id in s.conns && s.conns[id] == c else id !in s.conns && id !in s.used
  }

  /** The tracking state of the open connections is what their logged messages lead to. */
  ghost predicate TraceHolds(p0: Parser, w: World) {
    Run(Start(p0), w.trace).Some? && Tracks(Run(Start(p0), w.trace).value, w)
  }

  /** The response was logged at some event of the trace, and went out as it was logged there. */
  ghost predicate Explained(p: Parser, trace: seq<Event>, id: nat, e: Entry) {
    exists i: nat :: i < |trace| && trace[i] == Response(id, e.msg) && ExplainedAt(p, trace, i, id, e)
  }

  ghost predicate ExplainedAt(p: Parser, trace: seq<Event>, i: nat, id: nat, e: Entry)
    requires i < |trace|
  {
    Answers(p, trace[..i], id, e.msg) && Answer(p, trace[..i], id, e.msg).out == e.out
  }

  ghost predicate EachExplained(p: Parser, trace: seq<Event>, id: nat, log: seq<Entry>) {
    forall e <- log :: Explained(p, trace, id, e)
  }

  /** The first message of a server is its answer to the connection attempt, which is not edited. */
  ghost predicate AllExplained(p: Parser, trace: seq<Event>, id: nat, log: seq<Entry>) {
    log == [] || (log[0].out == log[0].msg && EachExplained(p, trace, id, log[1..]))
  }

  /** The requests that an open connection has been asked are the messages framed on it. */
  predicate AllAsked(trace: seq<Event>, links: map<nat, Link>) {
    forall id {:trigger LinkAsked(trace, id, links[id])} :: id in links ==> LinkAsked(trace, id, links[id])
  }

  predicate LinkAsked(trace: seq<Event>, id: nat, k: Link) {
    k.c.status.Open? ==> k.client.setup <= |k.client.log| && Asked(trace, id) == Messages(k.client)
  }

  ghost predicate WorldHolds(p0: Parser, w: World) {
    LinksHold(p0, w) && TraceHolds(p0, w) && LogsExplained(p0, w.trace, w.links) && AllAsked(w.trace, w.links)
  }

  ghost predicate LogsExplained(p: Parser, trace: seq<Event>, links: map<nat, Link>) {
    forall id <- links :: AllExplained(p, trace, id, links[id].server.log)
  }

  lemma ExplainedLater(p: Parser, trace: seq<Event>, more: seq<Event>, id: nat, log: seq<Entry>)
    requires EachExplained(p, trace, id, log)
    ensures EachExplained(p, trace + more, id, log)
  {
    forall e <- log ensures Explained(p, trace + more, id, e) {
      var i: nat :| i < |trace| && trace[i] == Response(id, e.msg) && ExplainedAt(p, trace, i, id, e);
      assert (trace + more)[..i] == trace[..i];
      assert ExplainedAt(p, trace + more, i, id, e);
    }
  }

  /** One logged message is one step of the run. */
  lemma MessageTraced(p0: Parser, trace: seq<Event>, side: Side, id: nat, e: Entry, s: System, l: Logged)
    requires Run(Start(p0), trace) == Some(s)
    requires id in s.conns && s.conns[id].id == id && s.conns[id].status.Open?
    requires RulesOf(side).handle(s.p, s.conns[id], e.msg, e.at) == Some(l) && l.out == e.out
    requires side.FromClient? ==> Contains(s.conns[id].mem, e.at, e.msg)
    ensures Run(Start(p0), trace + EventsOf(side, id, [e])) == Some(s.(p := l.p, conns := s.conns[id := l.c]))
    ensures l.c.id == id && l.c.status.Open? && l.c.mem == s.conns[id].mem
    ensures Fresh(p0) && side.FromServer? ==> Explained(p0, trace + EventsOf(side, id, [e]), id, e)
  {
    var event := EventsOf(side, id, [e])[0];
    var t := trace + EventsOf(side, id, [e]);
    assert t[..|t| - 1] == trace && t[|t| - 1] == event;
    HandleKeeps(side, s.p, s.conns[id], e.msg, e.at);
    if Fresh(p0) && side.FromServer? {
      assert ExplainedAt(p0, t, |trace|, id, e);
    }
  }

  predicate AllIn(mem: seq<byte>, log: seq<Entry>) { forall e <- log :: Contains(mem, e.at, e.msg) }

  lemma EventsSplit(trace: seq<Event>, side: Side, id: nat, log: seq<Entry>)
    ensures log == [] ==> trace + EventsOf(side, id, log) == trace
    ensures log != [] ==>
      trace + EventsOf(side, id, log[..1]) + EventsOf(side, id, log[1..]) == trace + EventsOf(side, id, log)
  {
  }

  /** Messages logged one after another are a run of the tracking state. */
  lemma {:induction false} LogsTraced(
    p0: Parser, trace: seq<Event>, side: Side, id: nat, log: seq<Entry>, s: System, rules: Rules, p': Parser, c': Conn)
    requires Fresh(p0) && Run(Start(p0), trace) == Some(s) && rules == RulesOf(side)
    requires id in s.conns && s.conns[id].id == id && s.conns[id].status.Open?
    requires Logs(rules, s.p, s.conns[id], log) == Some((p', c'))
    requires side.FromClient? ==> AllIn(s.conns[id].mem, log)
    ensures Run(Start(p0), trace + EventsOf(side, id, log)) == Some(s.(p := p', conns := s.conns[id := c']))
    ensures side.FromServer? ==> EachExplained(p0, trace + EventsOf(side, id, log), id, log)
    decreases |log|
  {
    EventsSplit(trace, side, id, log);
    if log == [] {
      assert s.conns[id := s.conns[id]] == s.conns;
    } else {
      var e, rest := log[0], log[1..];
      var l := rules.handle(s.p, s.conns[id], e.msg, e.at).value;
      assert log == [e] + rest;
      var trace', s' := trace + EventsOf(side, id, log[..1]), s.(p := l.p, conns := s.conns[id := l.c]);
      assert log[..1] == [e];
      MessageTraced(p0, trace, side, id, e, s, l);
      LogsTraced(p0, trace', side, id, rest, s', rules, p', c');
      assert s'.conns[id := c'] == s.conns[id := c'];
      if side.FromServer? {
        ExplainedLater(p0, trace', EventsOf(side, id, rest), id, [e]);
        assert e in [e];
      }
    }
  }

  lemma ReceiveLogs(side: Side, p: Parser, c: Conn, d: Dir, chunk: seq<byte>)
    requires c.status.Open? && Settled(d.b, HeaderOf(side)) && Receive(side, p, c, d, chunk).Some?
    ensures var m := Receive(side, p, c, d, chunk).value;
      && |d.log| <= |m.d.log| && m.d.log[..|d.log|] == d.log
      && Logs(RulesOf(side), p, c.(mem := m.c.mem), m.d.log[|d.log|..]) == Some((m.p, m.c))
  {
    var b := Filled(d.b, chunk).value;
    var c' := Refreshed(side, c, b);
    FilledAppends(d.b, HeaderOf(side), chunk);
    BothAreQuiet(side);
    PassLogs(RulesOf(side), p, c', b, 0);
    PassKeeps(side, p, c', b, 0);
    var r := Pass(RulesOf(side), p, c', b, 0).value;
    assert (d.log + r.log)[|d.log|..] == r.log && c' == c.(mem := r.c.mem);
  }

  /** The tracking state after a read, and what is known of the log. */
  ghost predicate TracedTo(p0: Parser, w: World, id: nat, side: Side, m: Moved, trace: seq<Event>, s': System)
    requires id in w.links && Run(Start(p0), w.trace).Some?
  {
    var s := Run(Start(p0), w.trace).value;
    && w.trace <= trace && Run(Start(p0), trace) == Some(s')
    && s'.p == m.p
    && (if m.c.status.Open? then s'.conns == s.conns[id := m.c] && s'.used == s.used + {id}
        else s'.conns == s.conns && s'.used == s.used)
    && (side.FromServer? ==> AllExplained(p0, trace, id, m.d.log))
  }

  lemma MoreExplained(p: Parser, trace: seq<Event>, more: seq<Event>, id: nat, before: seq<Entry>, log: seq<Entry>)
    requires AllExplained(p, trace, id, before) && before != [] && EachExplained(p, trace + more, id, log)
    ensures AllExplained(p, trace + more, id, before + log)
  {
    ExplainedLater(p, trace, more, id, before[1..]);
    assert (before + log)[1..] == before[1..] + log;
  }

  /** What a read leaves in the client's buffer is one step of the run. */
  lemma ReadTraced(p0: Parser, trace: seq<Event>, side: Side, id: nat, s: System, mem: seq<byte>)
    requires Run(Start(p0), trace) == Some(s) && id in s.conns && (side.FromServer? ==> mem == s.conns[id].mem)
    ensures Run(Start(p0), trace + Opening(side, id, mem)) == Some(s.(conns := s.conns[id := s.conns[id].(mem := mem)]))
  {
    var trace' := trace + Opening(side, id, mem);
    if side.FromClient? {
      assert trace'[..|trace'| - 1] == trace;
    } else {
      assert trace' == trace && s.conns[id := s.conns[id]] == s.conns;
    }
  }

  lemma OpenLogTraced(p0: Parser, w: World, id: nat, side: Side, log: seq<Entry>, m: Moved) returns (s': System)
    requires Fresh(p0) && WorldHolds(p0, w) && id in w.links && w.links[id].c.status.Open? && m.c.status.Open?
    requires m.d.log == DirOf(w.links[id], side).log + log && (side.FromServer? ==> m.c.mem == w.links[id].c.mem)
    requires Logs(RulesOf(side), w.p, w.links[id].c.(mem := m.c.mem), log) == Some((m.p, m.c))
    requires side.FromClient? ==> AllIn(m.c.mem, log)
    ensures TracedTo(p0, w, id, side, m, w.trace + Traced(side, w.links[id].c, m.c.mem, log), s')
  {
    var s := Run(Start(p0), w.trace).value;
    RunAgrees(p0, w.trace);
    assert ConnAgrees(p0, s, w.trace, id);
    assert LinkHolds(p0.host, id, w.links[id]) && TracksLink(s, id, w.links[id].c);
    s' := OpenLogRun(p0, w.trace, s, side, id, log, m.p, m.c);
    if side.FromServer? {
      MoreExplained(p0, w.trace, Opening(side, id, m.c.mem) + EventsOf(side, id, log), id, w.links[id].server.log, log);
    }
  }

  lemma OpenLogRun(p0: Parser, trace: seq<Event>, s: System, side: Side, id: nat, log: seq<Entry>, p': Parser, c': Conn)
    returns (s': System)
    requires Fresh(p0) && Run(Start(p0), trace) == Some(s) && id in s.conns && s.conns[id].id == id && s.conns[id].status.Open?
    requires side.FromServer? ==> c'.mem == s.conns[id].mem
    requires side.FromClient? ==> AllIn(c'.mem, log)
    requires Logs(RulesOf(side), s.p, s.conns[id].(mem := c'.mem), log) == Some((p', c'))
    ensures var more := Opening(side, id, c'.mem) + EventsOf(side, id, log);
      && Run(Start(p0), trace + more) == Some(s') && s'.p == p' && s'.conns == s.conns[id := c'] && s'.used == s.used
      && (side.FromServer? ==> EachExplained(p0, trace + more, id, log))
  {
    var opening, events := Opening(side, id, c'.mem), EventsOf(side, id, log);
    ReadTraced(p0, trace, side, id, s, c'.mem);
    var s1 := s.(conns := s.conns[id := s.conns[id].(mem := c'.mem)]);
    LogsTraced(p0, trace + opening, side, id, log, s1, RulesOf(side), p', c');
    assert trace + opening + events == trace + (opening + events);
    s' := s1.(p := p', conns := s1.conns[id := c']);
    assert s1.conns[id := c'] == s.conns[id := c'];
  }

  lemma OpenReadTraced(p0: Parser, w: World, id: nat, side: Side, chunk: seq<byte>) returns (s': System)
    requires Fresh(p0) && WorldHolds(p0, w) && id in w.links && LinkHolds(p0.host, id, w.links[id]) && w.links[id].c.status.Open?
    requires Receive(side, w.p, w.links[id].c, DirOf(w.links[id], side), chunk).Some?
    ensures var k := w.links[id]; var d := DirOf(k, side); var m := Receive(side, w.p, k.c, d, chunk).value;
      && |d.log| <= |m.d.log|
      && TracedTo(p0, w, id, side, m, w.trace + Traced(side, k.c, m.c.mem, m.d.log[|d.log|..]), s')
  {
    var k := w.links[id];
    var d := DirOf(k, side);
    var m := Receive(side, w.p, k.c, d, chunk).value;
    OpenReadHolds(w.p, id, k, side, chunk);
    ReceiveLogs(side, w.p, k.c, d, chunk);
    ReceiveKeeps(side, w.p, k.c, d, chunk);
    if side.FromClient? {
      ClientReceives(w.p, k.c, d, chunk);
    }
    var log := m.d.log[|d.log|..];
    assert m.d.log == d.log + log;
    s' := OpenLogTraced(p0, w, id, side, log, m);
  }

  lemma FirstReadTraced(p0: Parser, w: World, id: nat, chunk: seq<byte>) returns (s': System)
    requires WorldHolds(p0, w) && id in w.links && LinkHolds(p0.host, id, w.links[id]) && !w.links[id].c.status.Open?
    requires Receive(FromClient, w.p, w.links[id].c, w.links[id].client, chunk).Some?
    ensures var k := w.links[id]; var m := Receive(FromClient, w.p, k.c, k.client, chunk).value;
      TracedTo(p0, w, id, FromClient, m, w.trace, s')
  {
    FirstReadHolds(w.p, id, w.links[id], chunk);
    s' := Run(Start(p0), w.trace).value;
  }

  lemma EstablishedTraced(p0: Parser, trace: seq<Event>, s: System, c: Conn)
    requires Run(Start(p0), trace) == Some(s) && c == NewConn(c.id, c.byteswap, c.mem) && c.id !in s.used
    ensures Run(Start(p0), trace + [Established(c.id, c.byteswap, c.mem)])
      == Some(s.(conns := s.conns[c.id := c.(status := Open)], used := s.used + {c.id}))
  {
    var trace' := trace + [Established(c.id, c.byteswap, c.mem)];
    assert trace'[..|trace'| - 1] == trace;
  }

  lemma TracedOpening(trace: seq<Event>, c: Conn, mem: seq<byte>, log: seq<Entry>)
    requires !c.status.Open? && log != []
    ensures trace + [Established(c.id, c.byteswap, c.mem)] + EventsOf(FromServer, c.id, log[1..])
      == trace + Traced(FromServer, c, mem, log)
  {
  }

  /** The answer that opens a connection, and what comes behind it. */
  lemma OpeningRun(p0: Parser, trace: seq<Event>, s: System, c: Conn, log: seq<Entry>, p': Parser, c': Conn)
    returns (s': System)
    requires Fresh(p0) && Run(Start(p0), trace) == Some(s) && c == NewConn(c.id, c.byteswap, c.mem) && c.id !in s.used
    requires log != [] && Logs(SERVER_RULES, s.p, c.(status := Open), log[1..]) == Some((p', c'))
    ensures Run(Start(p0), trace + Traced(FromServer, c, c'.mem, log)) == Some(s')
    ensures s'.p == p' && s'.conns == s.conns[c.id := c'] && s'.used == s.used + {c.id}
    ensures EachExplained(p0, trace + Traced(FromServer, c, c'.mem, log), c.id, log[1..])
  {
    EstablishedTraced(p0, trace, s, c);
    var s1 := s.(conns := s.conns[c.id := c.(status := Open)], used := s.used + {c.id});
    LogsTraced(p0, trace + [Established(c.id, c.byteswap, c.mem)], FromServer, c.id, log[1..], s1, SERVER_RULES, p', c');
    TracedOpening(trace, c, c'.mem, log);
    s' := s1.(p := p', conns := s1.conns[c.id := c']);
    assert s1.conns[c.id := c'] == s.conns[c.id := c'];
  }

  lemma OpeningLogTraced(p0: Parser, w: World, id: nat, m: Moved) returns (s': System)
    requires Fresh(p0) && WorldHolds(p0, w) && id in w.links && LinkHolds(p0.host, id, w.links[id])
    requires !w.links[id].c.status.Open? && m.c.status.Open?
    requires m.d.log != [] && m.d.log[0].out == m.d.log[0].msg
    requires Logs(SERVER_RULES, w.p, w.links[id].c.(status := Open), m.d.log[1..]) == Some((m.p, m.c))
    ensures TracedTo(p0, w, id, FromServer, m, w.trace + Traced(FromServer, w.links[id].c, m.c.mem, m.d.log), s')
  {
    s' := OpeningRun(p0, w.trace, Run(Start(p0), w.trace).value, w.links[id].c, m.d.log, m.p, m.c);
  }

  lemma AnswerTraced(p0: Parser, w: World, id: nat, chunk: seq<byte>) returns (s': System)
    requires Fresh(p0) && WorldHolds(p0, w) && id in w.links && LinkHolds(p0.host, id, w.links[id]) && !w.links[id].c.status.Open?
    requires Receive(FromServer, w.p, w.links[id].c, w.links[id].server, chunk).Some?
    ensures var k := w.links[id]; var m := Receive(FromServer, w.p, k.c, k.server, chunk).value;
      TracedTo(p0, w, id, FromServer, m, w.trace + Traced(FromServer, k.c, m.c.mem, m.d.log), s')
  {
    var k := w.links[id];
    var m := Receive(FromServer, w.p, k.c, k.server, chunk).value;
    AnswerHolds(w.p, id, k, chunk);
    if m.d.log == [] {
      assert w.trace + [] == w.trace;
      s' := Run(Start(p0), w.trace).value;
    } else {
      s' := OpeningLogTraced(p0, w, id, m);
    }
  }

  // ---- every event keeps the invariant ----

  lemma LogsExplainedLater(p: Parser, trace: seq<Event>, trace': seq<Event>, links: map<nat, Link>)
    requires LogsExplained(p, trace, links) && trace <= trace'
    ensures LogsExplained(p, trace', links)
  {
    forall id <- links ensures AllExplained(p, trace', id, links[id].server.log) {
      if links[id].server.log != [] {
        MoreExplained(p, trace, trace'[|trace|..], id, links[id].server.log, []);
        assert trace + trace'[|trace|..] == trace' && links[id].server.log + [] == links[id].server.log;
      }
    }
  }

  lemma LinksAfter(p0: Parser, w: World, id: nat, k: Link, w': World)
    requires LinksHold(p0, w) && id in w'.used && w.used <= w'.used && LinkHolds(p0.host, id, k)
    requires w'.links == w.links[id := k] && w'.p.host == p0.host && w'.p.allowed == p0.allowed
    ensures LinksHold(p0, w')
  {
  }

  lemma TracksAfterRead(s: System, s': System, w: World, id: nat, k: Link, w': World)
    requires Tracks(s, w) && id in w.links && id in w.used && w'.links == w.links[id := k] && w'.used == w.used
    requires s'.p == w'.p
    requires k.c.status.Open? ==> s'.conns == s.conns[id := k.c] && s'.used == s.used + {id}
    requires !k.c.status.Open? ==> s'.conns == s.conns && s'.used == s.used && !w.links[id].c.status.Open?
    ensures Tracks(s', w')
  {
    forall i <- w'.links ensures TracksLink(s', i, w'.links[i].c) {
      assert i in w.links && TracksLink(s, i, w.links[i].c);
    }
  }

  lemma EventAsks(trace: seq<Event>, e: Event, i: nat)
    ensures Asked(trace + [e], i) == Asked(trace, i) + if e.Request? && e.id == i then [e.msg] else []
  {
    AfterEvent(trace, e, i);
  }

  lemma {:induction false} EventsAsk(trace: seq<Event>, side: Side, id: nat, log: seq<Entry>, i: nat)
    ensures Asked(trace + EventsOf(side, id, log), i) == Asked(trace, i) + if side.FromClient? && i == id then Msgs(log) else []
    decreases |log|
  {
    EventsSplit(trace, side, id, log);
    if log != [] {
      var e := EventsOf(side, id, log[..1])[0];
      assert EventsOf(side, id, log[..1]) == [e];
      FirstAsks(trace, side, id, log[0], e, i);
      EventsAsk(trace + [e], side, id, log[1..], i);
      MoreAsked(Asked(trace, i), log);
    }
  }

  lemma FirstAsks(trace: seq<Event>, side: Side, id: nat, entry: Entry, e: Event, i: nat)
    requires e == if side.FromClient? then Request(id, entry.msg, entry.at) else Response(id, entry.msg)
    ensures Asked(trace + [e], i) == Asked(trace, i) + if side.FromClient? && i == id then [entry.msg] else []
  {
    EventAsks(trace, e, i);
  }

  lemma MoreAsked(asked: seq<seq<byte>>, log: seq<Entry>)
    requires log != []
    ensures asked + [log[0].msg] + Msgs(log[1..]) == asked + Msgs(log) && asked + [] + [] == asked + []
  {
    assert Msgs(log) == [log[0].msg] + Msgs(log[1..]);
  }

  lemma TracedAsks(trace: seq<Event>, side: Side, c: Conn, mem: seq<byte>, log: seq<Entry>, i: nat)
    ensures Asked(trace + Traced(side, c, mem, log), i)
      == Asked(trace, i) + if side.FromClient? && c.status.Open? && i == c.id then Msgs(log) else []
  {
    if c.status.Open? {
      if side.FromClient? {
        EventAsks(trace, Event.Received(c.id, mem), i);
        assert trace + Traced(side, c, mem, log) == trace + [Event.Received(c.id, mem)] + EventsOf(side, c.id, log);
      } else {
        assert trace + Traced(side, c, mem, log) == trace + [] + EventsOf(side, c.id, log) && trace + [] == trace;
      }
      EventsAsk(trace + Opening(side, c.id, mem), side, c.id, log, i);
    } else if side.FromClient? || log == [] {
      assert trace + [] == trace;
    } else {
      EventAsks(trace, Established(c.id, c.byteswap, c.mem), i);
      TracedOpening(trace, c, mem, log);
      EventsAsk(trace + [Established(c.id, c.byteswap, c.mem)], side, c.id, log[1..], i);
    }
  }

  /** What is asked of a connection after a read is what is framed on it. */
  lemma AskedAfterRead(p0: Parser, w: World, id: nat, side: Side, m: Moved, log: seq<Entry>)
    requires Fresh(p0) && WorldHolds(p0, w) && id in w.links && LinkHolds(p0.host, id, w.links[id]) && w.links[id].client.b.Valid()
    requires var k := w.links[id]; var d := DirOf(k, side);
      && m.d.log == d.log + log && (side.FromClient? || k.c.status.Open? ==> m.d.setup == d.setup)
      && (k.c.status.Open? ==> m.c.status.Open?) && (side.FromClient? && !k.c.status.Open? ==> !m.c.status.Open?)
    ensures var k := w.links[id];
      AllAsked(w.trace + Traced(side, k.c, m.c.mem, log), w.links[id := AfterRead(k, side, m)])
  {
    var k, links := w.links[id], w.links[id := AfterRead(w.links[id], side, m)];
    var trace := w.trace + Traced(side, k.c, m.c.mem, log);
    assert LinkAsked(w.trace, id, k);
    if !k.c.status.Open? {
      NothingAskedYet(p0, w, id);
    }
    forall i | i in links ensures LinkAsked(trace, i, links[i]) {
      TracedAsks(w.trace, side, k.c, m.c.mem, log, i);
      if i == id {
        OwnAskedAfterRead(w.trace, trace, id, k, side, m, log);
      } else {
        assert LinkAsked(w.trace, i, w.links[i]);
      }
    }
  }

  lemma NothingAskedYet(p0: Parser, w: World, id: nat)
    requires Fresh(p0) && TraceHolds(p0, w) && id in w.links && !w.links[id].c.status.Open?
    ensures Asked(w.trace, id) == []
  {
    RunAgrees(p0, w.trace);
    assert TracksLink(Run(Start(p0), w.trace).value, id, w.links[id].c) && Requests(w.trace, id) == [];
  }

  lemma OwnAskedAfterRead(trace: seq<Event>, trace': seq<Event>, id: nat, k: Link, side: Side, m: Moved, log: seq<Entry>)
    requires LinkAsked(trace, id, k) && k.client.b.Valid() && (k.c.status.Open? || Asked(trace, id) == [])
    requires m.d.log == DirOf(k, side).log + log
    requires side.FromClient? || k.c.status.Open? ==> m.d.setup == DirOf(k, side).setup
    requires side.FromClient? && !k.c.status.Open? ==> !m.c.status.Open?
    requires Asked(trace', id) == Asked(trace, id) + if side.FromClient? && k.c.status.Open? then Msgs(log) else []
    ensures LinkAsked(trace', id, AfterRead(k, side, m))
  {
    if side.FromClient? && k.c.status.Open? {
      assert (k.client.log + log)[k.client.setup..] == k.client.log[k.client.setup..] + log;
      assert Msgs(k.client.log[k.client.setup..] + log) == Messages(k.client) + Msgs(log);
    } else if !k.c.status.Open? {
      assert Messages(AtOpening(k.client)) == [];
    }
  }

  lemma ReadHolds(p0: Parser, w: World, id: nat, side: Side, m: Moved, s': System, w': World)
    requires WorldHolds(p0, w) && id in w.links && LinkHolds(p0.host, id, w.links[id]) && w.links[id].client.b.Valid()
    requires TracedTo(p0, w, id, side, m, w'.trace, s')
    requires w' == World(m.p, w.links[id := AfterRead(w.links[id], side, m)], w.used, w'.trace)
    requires w.links[id].c.status.Open? ==> m.c.status.Open?
    requires LinkHolds(p0.host, id, AfterRead(w.links[id], side, m)) && m.p.host == p0.host && m.p.allowed == p0.allowed
    requires AllAsked(w'.trace, w'.links)
    ensures WorldHolds(p0, w')
  {
    var k := AfterRead(w.links[id], side, m);
    assert id in w.used;
    LinksAfter(p0, w, id, k, w');
    TracksAfterRead(Run(Start(p0), w.trace).value, s', w, id, k, w');
    ExplainedAfterRead(p0, w, id, k, w');
  }

  lemma ExplainedAfterRead(p0: Parser, w: World, id: nat, k: Link, w': World)
    requires LogsExplained(p0, w.trace, w.links) && w.trace <= w'.trace && id in w.links && w'.links == w.links[id := k]
    requires k.server.log != w.links[id].server.log ==> AllExplained(p0, w'.trace, id, k.server.log)
    ensures LogsExplained(p0, w'.trace, w'.links)
  {
    LogsExplainedLater(p0, w.trace, w'.trace, w.links);
  }

  lemma ReceivedLogIs(side: Side, p: Parser, c: Conn, d: Dir, chunk: seq<byte>)
    requires d.b.Valid() && Receive(side, p, c, d, chunk).Some?
    ensures var d' := Receive(side, p, c, d, chunk).value.d;
      && |d.log| <= |d'.log| && d'.log == d.log + d'.log[|d.log|..]
      && (c.status.Open? ==> d'.setup == d.setup)
  {
  }

  lemma OpenReadKeepsAll(p0: Parser, w: World, id: nat, side: Side, chunk: seq<byte>)
    requires Fresh(p0) && WorldHolds(p0, w) && Act(w, Read(id, side, chunk)).Some?
    requires w.links[id].c.status.Open? && LinkHolds(p0.host, id, w.links[id])
    ensures WorldHolds(p0, Act(w, Read(id, side, chunk)).value)
  {
    var k, w' := w.links[id], Act(w, Read(id, side, chunk)).value;
    var m := Receive(side, w.p, k.c, DirOf(k, side), chunk).value;
    ReceivedLogIs(side, w.p, k.c, DirOf(k, side), chunk);
    var s' := OpenReadTraced(p0, w, id, side, chunk);
    OpenReadHolds(w.p, id, k, side, chunk);
    AskedAfterRead(p0, w, id, side, m, m.d.log[|DirOf(k, side).log|..]);
    ReadHolds(p0, w, id, side, m, s', w');
  }

  lemma FirstReadKeepsAll(p0: Parser, w: World, id: nat, chunk: seq<byte>)
    requires Fresh(p0) && WorldHolds(p0, w) && Act(w, Read(id, FromClient, chunk)).Some?
    requires !w.links[id].c.status.Open? && LinkHolds(p0.host, id, w.links[id])
    ensures WorldHolds(p0, Act(w, Read(id, FromClient, chunk)).value)
  {
    var k, w' := w.links[id], Act(w, Read(id, FromClient, chunk)).value;
    var m := Receive(FromClient, w.p, k.c, k.client, chunk).value;
    ReceivedLogIs(FromClient, w.p, k.c, k.client, chunk);
    var s' := FirstReadTraced(p0, w, id, chunk);
    FirstReadHolds(w.p, id, k, chunk);
    AskedAfterRead(p0, w, id, FromClient, m, m.d.log[|k.client.log|..]);
    assert w.trace + [] == w.trace;
    ReadHolds(p0, w, id, FromClient, m, s', w');
  }

  lemma AnswerKeepsAll(p0: Parser, w: World, id: nat, chunk: seq<byte>)
    requires Fresh(p0) && WorldHolds(p0, w) && Act(w, Read(id, FromServer, chunk)).Some?
    requires !w.links[id].c.status.Open? && LinkHolds(p0.host, id, w.links[id])
    ensures WorldHolds(p0, Act(w, Read(id, FromServer, chunk)).value)
  {
    var k, w' := w.links[id], Act(w, Read(id, FromServer, chunk)).value;
    var m := Receive(FromServer, w.p, k.c, k.server, chunk).value;
    var s' := AnswerTraced(p0, w, id, chunk);
    AnswerHolds(w.p, id, k, chunk);
    assert m.d.log[|k.server.log|..] == m.d.log && k.server.log + m.d.log == m.d.log;
    AskedAfterRead(p0, w, id, FromServer, m, m.d.log);
    ReadHolds(p0, w, id, FromServer, m, s', w');
  }

  lemma ReadKeepsAll(p0: Parser, w: World, id: nat, side: Side, chunk: seq<byte>)
    requires Fresh(p0) && WorldHolds(p0, w) && Act(w, Read(id, side, chunk)).Some?
    ensures WorldHolds(p0, Act(w, Read(id, side, chunk)).value)
  {
    assert LinkHolds(p0.host, id, w.links[id]);
    if w.links[id].c.status.Open? {
      OpenReadKeepsAll(p0, w, id, side, chunk);
    } else if side.FromClient? {
      FirstReadKeepsAll(p0, w, id, chunk);
    } else {
      AnswerKeepsAll(p0, w, id, chunk);
    }
  }

  lemma TracksAfterAccept(s: System, w: World, id: nat, k: Link, w': World)
    requires Tracks(s, w) && id !in w.used && id !in w.links && !k.c.status.Open?
    requires w' == w.(links := w.links[id := k], used := w.used + {id})
    ensures Tracks(s, w')
  {
    forall i <- w'.links ensures TracksLink(s, i, w'.links[i].c) {
      assert i != id ==> TracksLink(s, i, w.links[i].c);
    }
  }

  lemma AskedOfOthers(trace: seq<Event>, links: map<nat, Link>, id: nat, k: Link)
    requires AllAsked(trace, links) && LinkAsked(trace, id, k)
    ensures AllAsked(trace, links[id := k])
  {
    var links' := links[id := k];
    forall i | i in links' ensures LinkAsked(trace, i, links'[i]) {
      assert i != id ==> LinkAsked(trace, i, links[i]);
    }
  }

  lemma LinkAdded(p0: Parser, w: World, id: nat, k: Link)
    requires WorldHolds(p0, w) && id !in w.used && LinkHolds(p0.host, id, k) && !k.c.status.Open? && k.server.log == []
    ensures WorldHolds(p0, w.(links := w.links[id := k], used := w.used + {id}))
  {
    var w' := w.(links := w.links[id := k], used := w.used + {id});
    LinksAfter(p0, w, id, k, w');
    TracksAfterAccept(Run(Start(p0), w.trace).value, w, id, k, w');
    AskedOfOthers(w.trace, w.links, id, k);
    assert AllExplained(p0, w.trace, id, []);
  }

  lemma AcceptKeepsAll(p0: Parser, w: World, id: nat)
    requires WorldHolds(p0, w) && id !in w.used
    ensures WorldHolds(p0, w.(links := w.links[id := NewLink(id)], used := w.used + {id}))
  {
    NewLinkHolds(p0.host, id);
    LinkAdded(p0, w, id, NewLink(id));
  }

  lemma WriteKeepsAll(p0: Parser, w: World, id: nat, side: Side, k: Link)
    requires WorldHolds(p0, w) && id in w.links && LinkHolds(p0.host, id, k)
    requires k.c == w.links[id].c && k.server.log == w.links[id].server.log
    requires k.client.log == w.links[id].client.log && k.client.setup == w.links[id].client.setup
    ensures WorldHolds(p0, w.(links := w.links[id := k]))
  {
    var w', s := w.(links := w.links[id := k]), Run(Start(p0), w.trace).value;
    assert id in w.used;
    LinksAfter(p0, w, id, k, w');
    forall i <- w'.links ensures TracksLink(s, i, w'.links[i].c) {
      assert TracksLink(s, i, w.links[i].c);
    }
    assert LinkAsked(w.trace, id, w.links[id]);
    AskedOfOthers(w.trace, w.links, id, k);
  }

  lemma CloseKeepsAll(p0: Parser, w: World, id: nat)
    requires WorldHolds(p0, w)
    ensures WorldHolds(p0, w.(links := w.links - {id}, trace := w.trace + [Gone(id)]))
  {
    var s, w' := Run(Start(p0), w.trace).value, w.(links := w.links - {id}, trace := w.trace + [Gone(id)]);
    var s' := s.(conns := s.conns - {id});
    assert w'.trace[..|w'.trace| - 1] == w.trace;
    assert Run(Start(p0), w'.trace) == Some(s');
    forall i <- w'.links ensures TracksLink(s', i, w'.links[i].c) {
      assert TracksLink(s, i, w.links[i].c);
    }
    LogsExplainedLater(p0, w.trace, w'.trace, w.links);
    forall i | i in w'.links ensures LinkAsked(w'.trace, i, w'.links[i]) {
      EventAsks(w.trace, Gone(id), i);
      assert LinkAsked(w.trace, i, w.links[i]);
    }
  }

  lemma ActKeepsAll(p0: Parser, w: World, a: Action)
    requires Fresh(p0) && WorldHolds(p0, w) && Act(w, a).Some?
    ensures WorldHolds(p0, Act(w, a).value)
  {
    match a
    case Accept(id) => AcceptKeepsAll(p0, w, id);
    case Read(id, side, chunk) => ReadKeepsAll(p0, w, id, side, chunk);
    case Write(id, side) =>
      var k := Act(w, a).value.links[id];
      assert LinkHolds(p0.host, id, w.links[id]);
      FlushHolds(p0.host, id, w.links[id], side);
      WriteKeepsAll(p0, w, id, side, k);
    case Close(id) => CloseKeepsAll(p0, w, id);
  }

  /** Every reachable state keeps every link's invariant, and agrees with the tracking run of its trace. */
  lemma {:induction false} ReachableHolds(p0: Parser, actions: seq<Action>)
    requires Fresh(p0) && ActAll(Begin(p0), actions).Some?
    ensures WorldHolds(p0, ActAll(Begin(p0), actions).value)
    decreases |actions|
  {
    if actions != [] {
      ReachableHolds(p0, actions[..|actions| - 1]);
      ActKeepsAll(p0, ActAll(Begin(p0), actions[..|actions| - 1]).value, actions[|actions| - 1]);
    }
  }
}
