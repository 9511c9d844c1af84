/**
 What a client and a server can rely on, in every state the relay can reach.
 */
module Transparency {
  import opened Bytes
  import opened SocketBuffers
  import opened Wire
  import opened Tracking
  import opened Histories
  import opened SequenceTable
  import opened MessageLoops
  import opened Passes
  import opened LoopRules
  import opened Relay
  import opened Worlds
  import opened WorldRuns
  import opened Cuts

  ghost predicate Reachable(p0: Parser, actions: seq<Action>, w: World) {
    Fresh(p0) && ActAll(Begin(p0), actions) == Some(w)
  }

  // ---- bytes ----

  /** The filter applies to response `m`, if it comes after the run `es`: it is taken for the answer to a
      QueryExtension request, and the bytes now under the view stashed for it spell a denied name. */
  ghost predicate Filtered(p0: Parser, es: seq<Event>, id: nat, m: seq<byte>)
    requires Answers(p0, es, id, m)
  {
    var s := Run(Start(p0), es).value;
    m[0] == REPLY_PREFIX && FilterApplies(s.p, s.conns[id], U16(Order(s.p, s.conns[id]), m, 2))
  }

  /** The entry is response `i` of the trace, edited if the filter applied to it there, and only then. */
  ghost predicate EditedAt(p0: Parser, trace: seq<Event>, i: nat, id: nat, e: Entry) {
    && i < |trace| && trace[i] == Response(id, e.msg) && Answers(p0, trace[..i], id, e.msg)
    && e.out == if Filtered(p0, trace[..i], id, e.msg) then e.msg[8 := 0] else e.msg
  }

  lemma ExplainedEdit(p0: Parser, trace: seq<Event>, id: nat, e: Entry)
    requires Fresh(p0) && Explained(p0, trace, id, e)
    ensures exists i: nat :: EditedAt(p0, trace, i, id, e)
  {
    var i: nat :| i < |trace| && trace[i] == Response(id, e.msg) && ExplainedAt(p0, trace, i, id, e);
    var s := Run(Start(p0), trace[..i]).value;
    OnlyThePresentFlagChanges(s.p, s.conns[id], e.msg);
    assert EditedAt(p0, trace, i, id, e);
  }

  /** In every reachable state, what the server was sent and what is buffered for it are the client's
      bytes, in order and unchanged, and as many have been sent as were logged. Unless a message was framed
      twice they are the logged messages, up to the end of one. */
  lemma ClientBytesAreRelayed(p0: Parser, actions: seq<Action>, w: World, id: nat)
    requires Reachable(p0, actions, w) && id in w.links
    ensures var d := w.links[id].client;
      && d.b.Valid() && d.received == d.sent + d.b.Data() && d.delivered <= |d.log|
      && |d.sent| == |Flatten(Msgs(d.log[..d.delivered]))|
      && (!d.echoed ==> d.sent == Flatten(Msgs(d.log[..d.delivered])))
  {
    ReachableHolds(p0, actions);
    assert LinkHolds(p0.host, id, w.links[id]);
    var d := w.links[id].client;
    assert !d.echoed ==> Msgs(d.log[..d.delivered]) == Outs(d.log[..d.delivered]);
  }

  lemma OrderedWhole(d: Dir)
    requires d.b.Valid() && d.delivered <= |d.log| && Ordered(d)
    ensures d.sent + d.b.Data() == Flatten(Outs(d.log)) + d.b.Pending()
  {
    assert d.b.Data() == d.b.Data()[..d.b.parsed] + d.b.Pending();
    Regroup(d.sent, d.b.Data()[..d.b.parsed], d.b.Pending());
  }

  /** In every reachable state, what the client was sent and what is buffered for it are the server's
      messages in order, the client having been sent whole ones. The answer to its first message is sent
      as it came; any other message is edited if and only if the filter applied to it when it came. */
  lemma ServerBytesAreRelayed(p0: Parser, actions: seq<Action>, w: World, id: nat)
    requires Reachable(p0, actions, w) && id in w.links
    ensures var d := w.links[id].server;
      && d.b.Valid() && d.delivered <= |d.log|
      && d.received == Flatten(Msgs(d.log)) + d.b.Pending()
      && d.sent + d.b.Data() == Flatten(Outs(d.log)) + d.b.Pending()
      && d.sent == Flatten(Outs(d.log[..d.delivered]))
    ensures var log := w.links[id].server.log;
      log != [] ==> log[0].out == log[0].msg && forall e <- log[1..] :: exists i: nat :: EditedAt(p0, w.trace, i, id, e)
  {
    ReachableHolds(p0, actions);
    assert LinkHolds(p0.host, id, w.links[id]);
    OrderedWhole(w.links[id].server);
    var log := w.links[id].server.log;
    if log != [] {
      forall e <- log[1..] ensures exists i: nat :: EditedAt(p0, w.trace, i, id, e) {
        ExplainedEdit(p0, w.trace, id, e);
      }
    }
  }

  // ---- chunking ----

  /** Nothing has been framed twice or cropped: the relay counts messages as the stream has them. */
  predicate KeepsCount(d: Dir) { !d.echoed && !d.cropped }

  /** However the sockets cut the streams into reads, the messages logged on an open connection are the
      first of the framing of the bytes received on it, unless a message was framed twice or cropped. If every
      cut was clean they are all of it. */
  lemma ChunksDoNotShow(p0: Parser, actions: seq<Action>, w: World, id: nat, side: Side)
    requires Reachable(p0, actions, w) && OpenIn(w, id)
    ensures var k := w.links[id]; var d := DirOf(k, side); var o := OrderOf(p0.host, k.c.byteswap);
      && d.b.Valid() && d.setup <= |d.log| && |Handshake(d)| <= |d.received| && Flatten(d.cuts) == Stream(d)
      && (KeepsCount(d) ==> Messages(d) <= Frames(side, o, Stream(d)).msgs)
      && (CleanCuts(side, o, d.cuts) ==> Frames(side, o, Stream(d)) == Framing(Messages(d), d.b.Pending()))
  {
    ReachableHolds(p0, actions);
    var k := w.links[id];
    var d, o := DirOf(k, side), OrderOf(p0.host, k.c.byteswap);
    assert LinkHolds(p0.host, id, k);
    OrderlyExactly(p0, actions, w, id, side);
    if CleanCuts(side, o, d.cuts) {
      AlongEnds(p0, actions, w, id, side);
    }
    if KeepsCount(d) {
      DirIsFramed(side, o, d);
    }
  }

  /** Two runs in which the same bytes arrived in different pieces, all of them clean cuts, have logged the
      same messages and hold the same rest. */
  lemma ChunkingIndependence(p0: Parser, actions: seq<Action>, w: World, id: nat,
                             actions': seq<Action>, w': World, id': nat, side: Side)
    requires Reachable(p0, actions, w) && OpenIn(w, id) && Reachable(p0, actions', w') && OpenIn(w', id')
    requires w.links[id].c.byteswap == w'.links[id'].c.byteswap
    requires var o := OrderOf(p0.host, w.links[id].c.byteswap);
      var cuts, cuts' := DirOf(w.links[id], side).cuts, DirOf(w'.links[id'], side).cuts;
      CleanCuts(side, o, cuts) && CleanCuts(side, o, cuts') && Flatten(cuts) == Flatten(cuts')
    ensures var d, d' := DirOf(w.links[id], side), DirOf(w'.links[id'], side);
      && d.b.Valid() && d'.b.Valid() && d.setup <= |d.log| && d'.setup <= |d'.log|
      && Messages(d) == Messages(d') && d.b.Pending() == d'.b.Pending()
  {
    ChunksDoNotShow(p0, actions, w, id, side);
    ChunksDoNotShow(p0, actions', w', id', side);
  }

  // ---- what becomes of a stuck direction ----

  /** The parsed and the pending part of a stuck direction, as the rest of the run leaves them. */
  predicate StillStuck(d: Dir, d': Dir)
    requires d.b.Valid()
  {
    && d'.b.Valid() && Stuck(d'.b) && d'.b.next == d.b.next && d'.b.parsed == d.b.parsed
    && d'.log == d.log && d'.sent == d.sent && d.received <= d'.received
  }

  lemma StuckRead(p: Parser, id: nat, k: Link, side: Side, from: Side, chunk: seq<byte>)
    requires LinkHolds(p.host, id, k) && k.c.status.Open?
    requires var d := DirOf(k, side); Stuck(d.b) && d.b.next.Some?
    requires Receive(from, p, k.c, DirOf(k, from), chunk).Some?
    ensures var k' := AfterRead(k, from, Receive(from, p, k.c, DirOf(k, from), chunk).value);
      k'.c.status.Open? && StillStuck(DirOf(k, side), DirOf(k', side))
  {
    OpenReadHolds(p, id, k, from, chunk);
    if from == side {
      StuckReceives(side, p, k.c, DirOf(k, side), chunk);
    }
  }

  lemma StuckStep(w: World, id: nat, side: Side, a: Action)
    requires id in w.used && id in w.links && LinkHolds(w.p.host, id, w.links[id]) && w.links[id].c.status.Open?
    requires var d := DirOf(w.links[id], side); Stuck(d.b) && d.b.next.Some?
    requires Act(w, a).Some? && id in Act(w, a).value.links
    ensures StillStuck(DirOf(w.links[id], side), DirOf(Act(w, a).value.links[id], side))
    ensures Act(w, a).value.links[id].c.status.Open?
  {
    if a.Read? && a.id == id {
      StuckRead(w.p, id, w.links[id], side, a.side, a.chunk);
      assert Act(w, a).value.links[id] == AfterRead(w.links[id], a.side, Receive(a.side, w.p, w.links[id].c, DirOf(w.links[id], a.side), a.chunk).value);
    } else if a.Write? && a.id == id {
      assert a.side != side;
    } else {
      assert Act(w, a).value.links[id] == w.links[id];
    }
  }

  /** The connection is gone, or its direction is where it was. */
  ghost predicate StuckSince(d: Dir, w: World, id: nat, side: Side)
    requires d.b.Valid()
  {
    id in w.used && (id in w.links ==> w.links[id].c.status.Open? && StillStuck(d, DirOf(w.links[id], side)))
  }

  lemma StuckSinceStep(p0: Parser, d: Dir, w: World, id: nat, side: Side, a: Action)
    requires WorldHolds(p0, w) && d.b.Valid() && d.b.next.Some? && StuckSince(d, w, id, side) && Act(w, a).Some?
    ensures StuckSince(d, Act(w, a).value, id, side)
  {
    var w' := Act(w, a).value;
    if id in w'.links {
      assert id in w.links && LinkHolds(p0.host, id, w.links[id]);
      StuckStep(w, id, side, a);
    }
  }

  /** A stuck direction sends and logs nothing more, whatever else happens, until its connection closes. */
  lemma {:induction false} StuckForEver(p0: Parser, d: Dir, w: World, id: nat, side: Side, actions: seq<Action>)
    requires Fresh(p0) && WorldHolds(p0, w) && d.b.Valid() && d.b.next.Some? && StuckSince(d, w, id, side)
    requires ActAll(w, actions).Some?
    ensures WorldHolds(p0, ActAll(w, actions).value) && StuckSince(d, ActAll(w, actions).value, id, side)
    decreases |actions|
  {
    if actions != [] {
      var before, a := actions[..|actions| - 1], actions[|actions| - 1];
      StuckForEver(p0, d, w, id, side, before);
      ActKeepsAll(p0, ActAll(w, before).value, a);
      StuckSinceStep(p0, d, ActAll(w, before).value, id, side, a);
    }
  }

  // ---- the poll discipline ----

  /** Each buffer is asked for exactly one of reading and writing, and the assertion behind that never
      fails. A write drains the buffer. A read that is not behind stuck bytes starts with nothing parsed
      and asks for at least one byte, so that zero bytes mean the end of the stream. The unsigned size of
      a read wraps exactly when stuck bytes outweigh the message waited for. */
  predicate PolledSoundly(b: Buffer) {
    && b.Valid() && b.written == 0
    && (!b.ReadReady() ==> b.WriteReady() && b.parsed == b.Size() && Sent(b, b.parsed) == Clear(b))
    && (b.ReadReady() && !Stuck(b) ==> b.parsed == 0 && BytesToRead(b).Some? && BytesToRead(b).value > 0)
    && (BytesToRead(b).None? <==> Stuck(b) && b.next.Some? && b.next.value < b.Size())
  }

  lemma SettledIsPolledSoundly(b: Buffer, header: nat)
    requires Settled(b, header) && header < BLOCK_SZ
    ensures PolledSoundly(b)
  {
    assert |b.store| >= BLOCK_SZ;
  }

  /** In every reachable state every buffer is polled soundly, and no connection has a status the loops
      cannot deal with. */
  lemma PollDiscipline(p0: Parser, actions: seq<Action>, w: World, id: nat, side: Side)
    requires Reachable(p0, actions, w) && id in w.links
    ensures PolledSoundly(DirOf(w.links[id], side).b) && Live(w.links[id].c)
  {
    ReachableHolds(p0, actions);
    assert LinkHolds(p0.host, id, w.links[id]);
    SettledIsPolledSoundly(DirOf(w.links[id], side).b, HeaderOf(side));
  }

  // ---- the extension filter ----

  lemma {:induction false} SwapIsKept(p0: Parser, es: seq<Event>, i: nat, id: nat)
    requires i <= |es| && Run(Start(p0), es).Some? && Fresh(p0)
    requires Run(Start(p0), es[..i]).Some? && id in Run(Start(p0), es[..i]).value.used
    ensures SwapOf(es[..i], id) == SwapOf(es, id)
    ensures id in Run(Start(p0), es).value.used
    decreases |es|
  {
    if i < |es| {
      assert es[..|es| - 1][..i] == es[..i];
      RunPrefix(p0, es, i);
      SwapIsKept(p0, es[..|es| - 1], i, id);
    } else {
      assert es[..i] == es;
    }
  }

  lemma {:induction false} RunPrefix(p0: Parser, es: seq<Event>, i: nat)
    requires i <= |es| && Run(Start(p0), es).Some?
    ensures Run(Start(p0), es[..i]).Some?
    decreases |es|
  {
    if i < |es| {
      assert es[..|es| - 1][..i] == es[..i];
      RunPrefix(p0, es[..|es| - 1], i);
    } else {
      assert es[..i] == es;
    }
  }

  lemma QueryCloses(p: Parser, c: Conn, m: seq<byte>)
    requires LogResponse(p, c, m).Some? && m[0] == REPLY_PREFIX
    requires var k := U16(Order(p, c), m, 2); k in c.opcodes && c.opcodes[k] == QUERY_EXTENSION
    ensures AnswersForGood(Order(p, c), c.opcodes, m, U16(Order(p, c), m, 2))
  {
  }

  /** The reply to a query closes its number, which was given before. */
  lemma ReplyCloses(p0: Parser, es: seq<Event>, id: nat, m: seq<byte>, n: nat) returns (r: nat)
    requires Answers(p0, es, id, m) && m[0] == REPLY_PREFIX && |Requests(es, id)| <= SEQ_MOD
    requires Carries(Requests(es, id), n, U16(OrderAfter(p0, es, id), m, 2))
    requires var q := Requests(es, id)[n - 1]; q.msg != [] && q.msg[0] == QUERY_EXTENSION
    ensures var k := U16(OrderAfter(p0, es, id), m, 2); var s := Run(Start(p0), es).value;
      r < |es| && Numbered(es, r, id, k) && AnswersForGood(Order(s.p, s.conns[id]), s.conns[id].opcodes, m, k)
  {
    var s, k := Run(Start(p0), es).value, U16(OrderAfter(p0, es, id), m, 2);
    RunAgrees(p0, es);
    assert ConnAgrees(p0, s, es, id);
    ReplyFindsItsRequest(p0, es, id, m, n);
    QueryCloses(s.p, s.conns[id], m);
    TableIsEarliest(p0, es, id, k);
    r :| Earliest(p0, es, r, id, k);
  }

  /** ... so it comes once. */
  lemma ReplyComesOnce(p0: Parser, trace: seq<Event>, id: nat, m: seq<byte>, i: nat, i': nat, n: nat)
    requires i < i' < |trace| && trace[i] == Response(id, m) && |Requests(trace[..i'], id)| <= SEQ_MOD
    requires Answers(p0, trace[..i], id, m) && m[0] == REPLY_PREFIX
    requires OrderAfter(p0, trace[..i], id) == OrderAfter(p0, trace[..i'], id)
    requires Carries(Requests(trace[..i], id), n, U16(OrderAfter(p0, trace[..i], id), m, 2))
    requires var r := Requests(trace[..i], id)[n - 1]; r.msg != [] && r.msg[0] == QUERY_EXTENSION
    ensures !Answers(p0, trace[..i'], id, m)
  {
    var es, es' := trace[..i], trace[..i'];
    assert es'[..i] == es && es'[i] == trace[i];
    RequestsPrefix(es', i, id);
    if Answers(p0, es', id, m) {
      var r := ReplyCloses(p0, es, id, m, n);
      assert es[..r] == es'[..r];
      AnsweredOnce(p0, es', r, i, id, U16(OrderAfter(p0, es, id), m, 2));
    }
  }

  /** Response `j` of the connection, which is event `i` of the trace, is a reply with the number of the
      `n`-th message of the client's stream, a QueryExtension request. */
  predicate RepliesTo(p0: Parser, w: World, id: nat, j: nat, i: nat, n: nat)
    requires OpenIn(w, id)
  {
    var o, k := OrderOf(p0.host, w.links[id].c.byteswap), w.links[id];
    && 1 <= j < |k.server.log| && i < |w.trace| && w.trace[i] == Response(id, k.server.log[j].msg)
    && |k.server.log[j].msg| >= RESPONSE_SZ && k.server.log[j].msg[0] == REPLY_PREFIX
    && |Requests(w.trace, id)| <= SEQ_MOD && Carries(Requests(w.trace, id), n, U16(o, k.server.log[j].msg, 2))
    && k.client.setup <= |k.client.log| && |Handshake(k.client)| <= |k.client.received|
    && var q := StreamMessage(p0, k, n); q != [] && q[0] == QUERY_EXTENSION
  }

  /** The `n`-th message of what the client has sent on the open connection, if it has been framed. */
  function StreamMessage(p0: Parser, k: Link, n: nat): seq<byte>
    requires k.client.setup <= |k.client.log| && |Handshake(k.client)| <= |k.client.received|
  {
    var msgs := Frames(FromClient, OrderOf(p0.host, k.c.byteswap), Stream(k.client)).msgs;
    if 1 <= n <= |msgs| then msgs[n - 1] else []
  }

  /** The requests that the relay has counted are the first messages of the client's stream, unless it
      framed one twice or cropped one. */
  lemma RequestsAreTheStream(p0: Parser, actions: seq<Action>, w: World, id: nat, n: nat)
    requires Reachable(p0, actions, w) && OpenIn(w, id) && KeepsCount(w.links[id].client)
    requires 1 <= n <= |Requests(w.trace, id)|
    ensures var d := w.links[id].client; d.setup <= |d.log| && |Handshake(d)| <= |d.received|
    ensures Requests(w.trace, id)[n - 1].msg == StreamMessage(p0, w.links[id], n)
  {
    ReachableHolds(p0, actions);
    ChunksDoNotShow(p0, actions, w, id, FromClient);
    assert LinkAsked(w.trace, id, w.links[id]);
    assert Asked(w.trace, id)[n - 1] == Requests(w.trace, id)[n - 1].msg;
  }

  lemma TraceOrder(p0: Parser, actions: seq<Action>, w: World, id: nat, i: nat, m: seq<byte>)
    requires Reachable(p0, actions, w) && OpenIn(w, id) && i <= |w.trace| && Answers(p0, w.trace[..i], id, m)
    ensures OrderAfter(p0, w.trace[..i], id) == OrderOf(p0.host, w.links[id].c.byteswap)
  {
    ReachableHolds(p0, actions);
    var s := Run(Start(p0), w.trace).value;
    assert TracksLink(s, id, w.links[id].c);
    RunAgrees(p0, w.trace);
    RunAgrees(p0, w.trace[..i]);
    assert ConnAgrees(p0, s, w.trace, id) && ConnAgrees(p0, Run(Start(p0), w.trace[..i]).value, w.trace[..i], id);
    SwapIsKept(p0, w.trace, i, id);
  }

  /** Response `j` was logged as event `i`. */
  lemma LoggedThen(p0: Parser, actions: seq<Action>, w: World, id: nat, j: nat, i: nat, n: nat)
    requires Reachable(p0, actions, w) && OpenIn(w, id) && KeepsCount(w.links[id].client) && RepliesTo(p0, w, id, j, i, n)
    ensures ExplainedAt(p0, w.trace, i, id, w.links[id].server.log[j])
  {
    ReachableHolds(p0, actions);
    var e := w.links[id].server.log[j];
    assert e == w.links[id].server.log[1..][j - 1] && Explained(p0, w.trace, id, e);
    var i': nat :| i' < |w.trace| && w.trace[i'] == Response(id, e.msg) && ExplainedAt(p0, w.trace, i', id, e);
    RequestsAreTheStream(p0, actions, w, id, n);
    AnsweredThen(p0, w, i, id, e.msg);
    SameReply(p0, actions, w, id, e.msg, i, i', n);
  }

  /** A response of the trace was logged in the state before it. */
  lemma AnsweredThen(p0: Parser, w: World, i: nat, id: nat, m: seq<byte>)
    requires Fresh(p0) && WorldHolds(p0, w) && i < |w.trace| && w.trace[i] == Response(id, m)
    ensures Answers(p0, w.trace[..i], id, m)
  {
    RunPrefix(p0, w.trace, i + 1);
    assert w.trace[..i + 1][..i] == w.trace[..i] && w.trace[..i + 1][i] == w.trace[i];
  }

  lemma SameReply(p0: Parser, actions: seq<Action>, w: World, id: nat, m: seq<byte>, i: nat, i': nat, n: nat)
    requires Reachable(p0, actions, w) && OpenIn(w, id) && i < |w.trace| && i' < |w.trace|
    requires w.trace[i] == Response(id, m) == w.trace[i']
    requires Answers(p0, w.trace[..i], id, m) && Answers(p0, w.trace[..i'], id, m)
    requires |m| >= RESPONSE_SZ && m[0] == REPLY_PREFIX && |Requests(w.trace, id)| <= SEQ_MOD
    requires Carries(Requests(w.trace, id), n, U16(OrderOf(p0.host, w.links[id].c.byteswap), m, 2))
    requires Requests(w.trace, id)[n - 1].msg != [] && Requests(w.trace, id)[n - 1].msg[0] == QUERY_EXTENSION
    ensures i == i'
  {
    TraceOrder(p0, actions, w, id, i, m);
    TraceOrder(p0, actions, w, id, i', m);
    RequestsPrefix(w.trace, i, id);
    RequestsPrefix(w.trace, i', id);
    NumberedBefore(p0, w, id, i, m, n);
    NumberedBefore(p0, w, id, i', m, n);
    if i < i' {
      ReplyComesOnce(p0, w.trace, id, m, i, i', n);
    } else if i' < i {
      ReplyComesOnce(p0, w.trace, id, m, i', i, n);
    }
  }

  /** A request whose reply has been logged was logged before it. */
  lemma NumberedBefore(p0: Parser, w: World, id: nat, i: nat, m: seq<byte>, n: nat)
    requires i <= |w.trace| && Answers(p0, w.trace[..i], id, m) && m[0] == REPLY_PREFIX
    requires |Requests(w.trace, id)| <= SEQ_MOD
    requires Carries(Requests(w.trace, id), n, U16(OrderAfter(p0, w.trace[..i], id), m, 2))
    ensures n <= |Requests(w.trace[..i], id)| && Requests(w.trace[..i], id)[n - 1] == Requests(w.trace, id)[n - 1]
  {
    var es := w.trace[..i];
    RunAgrees(p0, es);
    assert ConnAgrees(p0, Run(Start(p0), es).value, es, id);
    RequestsPrefix(w.trace, i, id);
    var k := U16(OrderAfter(p0, es, id), m, 2);
    var n' :| Carries(Requests(es, id), n', k);
    NumbersUnique(Requests(w.trace, id), n, n', k);
  }

  /** Over every interleaving and chunking: as long as a connection has made at most 65,536 requests and
      none was framed twice or cropped, the reply to the `n`-th request of the client's stream, a query for an
      extension, goes out with `present` cleared if and only if the bytes that were then at the place of the
      request's name in the client's buffer spelled a denied one, and otherwise as it came. */
  lemma FilterIsExactOnStreams(p0: Parser, actions: seq<Action>, w: World, id: nat, j: nat, i: nat, n: nat)
    requires Reachable(p0, actions, w) && OpenIn(w, id) && KeepsCount(w.links[id].client) && RepliesTo(p0, w, id, j, i, n)
    ensures Requests(w.trace, id)[n - 1].msg == StreamMessage(p0, w.links[id], n)
    ensures var e := w.links[id].server.log[j]; var now := NameNow(p0, w.trace[..i], id, Requests(w.trace, id)[n - 1]);
      now.Some? && e.out == if now.value in p0.allowed then e.msg else e.msg[8 := 0]
  {
    var e := w.links[id].server.log[j];
    RequestsAreTheStream(p0, actions, w, id, n);
    LoggedThen(p0, actions, w, id, j, i, n);
    TraceOrder(p0, actions, w, id, i, e.msg);
    NumberedBefore(p0, w, id, i, e.msg, n);
    RequestsPrefix(w.trace, i, id);
    FilterReadsThePlace(p0, w.trace[..i], id, e.msg, n);
  }

  /** ... so a denied extension is not shown if nothing was read from the client between its query, event `r`
      of the trace, and the reply. */
  lemma DeniedIsNeverShown(p0: Parser, actions: seq<Action>, w: World, id: nat, j: nat, i: nat, n: nat, r: nat, name: Name)
    requires Reachable(p0, actions, w) && OpenIn(w, id) && KeepsCount(w.links[id].client) && RepliesTo(p0, w, id, j, i, n)
    requires NameIn(OrderOf(p0.host, w.links[id].c.byteswap), StreamMessage(p0, w.links[id], n)) == Some(name)
    requires name !in p0.allowed
    requires r < i && w.trace[r].Request? && w.trace[r].id == id && |Requests(w.trace[..r], id)| == n - 1
    requires Unread(w.trace[..i], r, id)
    ensures var e := w.links[id].server.log[j]; e.out == e.msg[8 := 0]
  {
    var es, e := w.trace[..i], w.links[id].server.log[j];
    FilterIsExactOnStreams(p0, actions, w, id, j, i, n);
    LoggedThen(p0, actions, w, id, j, i, n);
    TraceOrder(p0, actions, w, id, i, e.msg);
    NumberedBefore(p0, w, id, i, e.msg, n);
    assert es[..r] == w.trace[..r] && es[r] == w.trace[r];
    ListedAt(es, r);
    UnreadNameIsItsOwn(p0, es, r);
  }
}
