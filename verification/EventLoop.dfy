/**
 One turn of the event loop: what is asked of poll(2), and what is done about its answer.
 */
module EventLoop {
  import opened Bytes
  import opened SocketBuffers
  import opened Wire
  import opened Tracking
  import Histories
  import opened Passes
  import opened LoopRules
  import opened Relay
  import opened Worlds
  import opened WorldRuns
  import opened PollIndex

  function Other(side: Side): Side { if side.FromClient? then FromServer else FromClient }

  /** The socket a side's bytes come from is asked to deliver when their buffer is ready for reading, and
      to take the other side's bytes when theirs is not. */
  function Asked(k: Link, side: Side): Flags
    requires k.client.b.Valid() && k.server.b.Valid()
  {
    Flags(true, DirOf(k, side).b.ReadReady(), !DirOf(k, Other(side)).b.ReadReady(), false)
  }

  predicate AllValid(links: map<nat, Link>) { forall id <- links :: links[id].client.b.Valid() && links[id].server.b.Valid() }

  function AsksOf(links: map<nat, Link>): (asks: map<nat, (Flags, Flags)>)
    requires AllValid(links)
    ensures asks.Keys == links.Keys
  {
    map id <- links :: (Asked(links[id], FromClient), Asked(links[id], FromServer))
  }

  /** poll(2) reports no reading or writing that was not asked for. */
  predicate Answers(got: Flags, asked: Flags) {
    (got.read ==> asked.read) && (got.write ==> asked.write)
  }

  /** What a socket would do: the bytes it has to give, `None` for a failing call and `[]` for the end of
      its stream, and whether it takes what is sent. */
  datatype Io = Io(available: Option<seq<byte>>, takes: bool)

  function Taken(available: seq<byte>, want: nat): (r: seq<byte>)
    ensures r <= available && |r| <= want
    ensures r == [] ==> available == [] || want == 0
  {
    if |available| <= want then available else available[..want]
  }

  datatype Served = Served(p: Parser, k: Link, actions: seq<Action>, close: bool)

  function WithDir(k: Link, side: Side, d: Dir): Link {
    if side.FromClient? then k.(client := d) else k.(server := d)
  }

  /** One of the two sockets of connection `id`: reads and logs, or writes what the other side's buffer has
      parsed, or looks at the error conditions. (Buffers are valid in every reachable state.) */
  function ServeEnd(side: Side, p: Parser, id: nat, k: Link, got: Flags, io: Io): Option<Served> {
    if !k.client.b.Valid() || !k.server.b.Valid() then None
    else if got.read then ReadTurn(side, p, id, k, io)
    else if got.write && DirOf(k, Other(side)).b.WriteReady() then Some(WriteEnd(side, p, id, k, io.takes))
    else Some(Served(p, k, [], got.error || got.pri))
  }

  /** The bytes that a read gets: none when it fails or the stream has ended. */
  function Given(b: Buffer, io: Io): Option<seq<byte>>
    requires b.Valid()
  {
    var want := BytesToRead(b);
    if want.None? then None else Some(if io.available.None? then [] else Taken(io.available.value, want.value))
  }

  function ReadEnd(side: Side, p: Parser, id: nat, k: Link, chunk: seq<byte>): Option<Served>
    requires k.client.b.Valid() && k.server.b.Valid()
  {
    if chunk == [] then Some(Served(p, k, [], true))
    else
      var m := Receive(side, p, k.c, DirOf(k, side), chunk);
      if m.None? then None else Some(Served(m.value.p, AfterRead(k, side, m.value), [Read(id, side, chunk)], false))
  }

  function ReadTurn(side: Side, p: Parser, id: nat, k: Link, io: Io): Option<Served>
    requires k.client.b.Valid() && k.server.b.Valid()
  {
    var chunk := Given(DirOf(k, side).b, io);
    if chunk.None? then None else ReadEnd(side, p, id, k, chunk.value)
  }

  function WriteEnd(side: Side, p: Parser, id: nat, k: Link, takes: bool): Served
    requires k.client.b.Valid() && k.server.b.Valid()
  {
    if !takes then Served(p, k, [], true)
    else Served(p, WithDir(k, Other(side), Drained(DirOf(k, Other(side)))), [Write(id, Other(side))], false)
  }

  /** Both sockets, the client's first. Closing skips the rest. */
  function Serve(p: Parser, id: nat, k: Link, client: Flags, server: Flags, clientIo: Io, serverIo: Io): Option<Served> {
    var first := ServeEnd(FromClient, p, id, k, client, clientIo);
    if first.None? || first.value.close then first
    else
      var second := ServeEnd(FromServer, first.value.p, id, first.value.k, server, serverIo);
      if second.None? then None else Some(second.value.(actions := first.value.actions + second.value.actions))
  }

  /** The world with the events of one connection. */
  predicate Follows(w: World, r: Served, id: nat, w': World) {
    ActAll(w, r.actions) == Some(w') && w'.p == r.p && w'.links == w.links[id := r.k] && w'.used == w.used
  }

  lemma OneAct(w: World, a: Action)
    ensures ActAll(w, [a]) == Act(w, a) && ActAll(w, []) == Some(w)
  {
    assert [a][..0] == [];
  }

  lemma {:induction false} ActAllConcat(w: World, a: seq<Action>, b: seq<Action>)
    requires ActAll(w, a).Some?
    ensures ActAll(w, a + b) == ActAll(ActAll(w, a).value, b)
    decreases |b|
  {
    if b == [] {
      assert a + b == a;
    } else {
      ActAllConcat(w, a, b[..|b| - 1]);
      assert (a + b)[..|a + b| - 1] == a + b[..|b| - 1];
    }
  }

  lemma ReceivedLogGrows(side: Side, p: Parser, c: Conn, d: Dir, chunk: seq<byte>)
    requires d.b.Valid() && Receive(side, p, c, d, chunk).Some?
    ensures |d.log| <= |Receive(side, p, c, d, chunk).value.d.log|
  {
  }

  lemma ReadActs(side: Side, w: World, id: nat, chunk: seq<byte>) returns (w': World)
    requires id in w.links && w.links[id].client.b.Valid() && DirOf(w.links[id], side).b.Valid()
    requires Receive(side, w.p, w.links[id].c, DirOf(w.links[id], side), chunk).Some?
    ensures var k := w.links[id]; var m := Receive(side, w.p, k.c, DirOf(k, side), chunk).value;
      Follows(w, Served(m.p, AfterRead(k, side, m), [Read(id, side, chunk)], false), id, w')
  {
    ReceivedLogGrows(side, w.p, w.links[id].c, DirOf(w.links[id], side), chunk);
    OneAct(w, Read(id, side, chunk));
    w' := Act(w, Read(id, side, chunk)).value;
  }

  lemma WriteActs(side: Side, w: World, id: nat) returns (w': World)
    requires id in w.links && DirOf(w.links[id], side).b.Valid() && Flush(DirOf(w.links[id], side)).Some?
    ensures var k := w.links[id];
      Follows(w, Served(w.p, WithDir(k, side, Drained(DirOf(k, side))), [Write(id, side)], false), id, w')
  {
    OneAct(w, Write(id, side));
    w' := Act(w, Write(id, side)).value;
  }

  /** What is done for one socket is at most one event of the relay's state machine. */
  lemma ServeEndActs(side: Side, w: World, id: nat, got: Flags, io: Io) returns (w': World)
    requires id in w.links && w.links[id].client.b.Valid() && w.links[id].server.b.Valid()
    requires Answers(got, Asked(w.links[id], side)) && ServeEnd(side, w.p, id, w.links[id], got, io).Some?
    ensures Follows(w, ServeEnd(side, w.p, id, w.links[id], got, io).value, id, w')
  {
    var k := w.links[id];
    var r := ServeEnd(side, w.p, id, k, got, io).value;
    if r.actions == [] {
      w' := w;
      assert w.links[id := k] == w.links;
      OneAct(w, Close(id));
    } else if got.read {
      w' := ReadActs(side, w, id, r.actions[0].chunk);
    } else {
      w' := WriteActs(Other(side), w, id);
    }
  }

  lemma {:induction false} ActsKeepAll(p0: Parser, w: World, actions: seq<Action>)
    requires Histories.Fresh(p0) && WorldHolds(p0, w) && ActAll(w, actions).Some?
    ensures WorldHolds(p0, ActAll(w, actions).value)
    decreases |actions|
  {
    if actions != [] {
      ActsKeepAll(p0, w, actions[..|actions| - 1]);
      ActKeepsAll(p0, ActAll(w, actions[..|actions| - 1]).value, actions[|actions| - 1]);
    }
  }

  /** What the first socket's event leaves is still what the second socket was asked for: a buffer that was
      read was not to be written, and a buffer that was written was not to be read. */
  lemma SecondEndAsked(p: Parser, id: nat, k: Link, client: Flags, server: Flags, io: Io)
    requires k.client.b.Valid() && k.server.b.Valid() && ServeEnd(FromClient, p, id, k, client, io).Some?
    requires Answers(client, Asked(k, FromClient)) && Answers(server, Asked(k, FromServer))
    ensures var k' := ServeEnd(FromClient, p, id, k, client, io).value.k;
      k'.client.b.Valid() && k'.server.b.Valid() ==> Answers(server, Asked(k', FromServer))
  {
  }

  /** One socket brings at most one event: a read of its own side's buffer, or a write of the other's. */
  predicate EndEvents(side: Side, id: nat, got: Flags, actions: seq<Action>) {
    || actions == []
    || (|actions| == 1 && got.read && actions[0].Read? && actions[0].id == id && actions[0].side == side)
    || (|actions| == 1 && got.write && !got.read && actions[0].Write? && actions[0].id == id && actions[0].side == Other(side))
  }

  lemma EndHasEvents(side: Side, p: Parser, id: nat, k: Link, got: Flags, io: Io)
    requires k.client.b.Valid() && k.server.b.Valid() && ServeEnd(side, p, id, k, got, io).Some?
    ensures EndEvents(side, id, got, ServeEnd(side, p, id, k, got, io).value.actions)
  {
  }

  /** A turn of the loop on one connection is at most two events, and never two of the same buffer. */
  lemma OneEventPerBuffer(p: Parser, id: nat, k: Link, client: Flags, server: Flags, clientIo: Io, serverIo: Io)
    requires k.client.b.Valid() && k.server.b.Valid() && Serve(p, id, k, client, server, clientIo, serverIo).Some?
    requires Answers(client, Asked(k, FromClient)) && Answers(server, Asked(k, FromServer))
    ensures var actions := Serve(p, id, k, client, server, clientIo, serverIo).value.actions;
      && |actions| <= 2 && (forall a <- actions :: (a.Read? || a.Write?) && a.id == id)
      && (|actions| == 2 ==> actions[0].side != actions[1].side)
  {
    var first := ServeEnd(FromClient, p, id, k, client, clientIo).value;
    EndHasEvents(FromClient, p, id, k, client, clientIo);
    if !first.close {
      EndHasEvents(FromServer, first.p, id, first.k, server, serverIo);
    }
  }

  lemma FollowsJoin(w: World, first: Served, id: nat, w1: World, second: Served, w2: World, r: Served)
    requires Follows(w, first, id, w1) && Follows(w1, second, id, w2)
    requires r == second.(actions := first.actions + second.actions)
    ensures Follows(w, r, id, w2)
  {
    ActAllConcat(w, first.actions, second.actions);
    assert w.links[id := first.k][id := second.k] == w.links[id := second.k];
  }

  /** ... and those events are a run of the relay's state machine: nothing is read or written that it
      does not allow. */
  lemma ServeActs(p0: Parser, w: World, id: nat, client: Flags, server: Flags, clientIo: Io, serverIo: Io) returns (w': World)
    requires Histories.Fresh(p0) && WorldHolds(p0, w) && id in w.links
    requires w.links[id].client.b.Valid() && w.links[id].server.b.Valid()
    requires Answers(client, Asked(w.links[id], FromClient)) && Answers(server, Asked(w.links[id], FromServer))
    requires Serve(w.p, id, w.links[id], client, server, clientIo, serverIo).Some?
    ensures Follows(w, Serve(w.p, id, w.links[id], client, server, clientIo, serverIo).value, id, w')
    ensures WorldHolds(p0, w')
  {
    var k := w.links[id];
    var first := ServeEnd(FromClient, w.p, id, k, client, clientIo).value;
    var w1 := ServeEndActs(FromClient, w, id, client, clientIo);
    ActsKeepAll(p0, w, first.actions);
    if first.close {
      w' := w1;
    } else {
      SecondEndAsked(w.p, id, k, client, server, clientIo);
      var second := ServeEnd(FromServer, w1.p, id, w1.links[id], server, serverIo).value;
      w' := ServeEndActs(FromServer, w1, id, server, serverIo);
      FollowsJoin(w, first, id, w1, second, w', second.(actions := first.actions + second.actions));
      ActsKeepAll(p0, w1, second.actions);
    }
  }

  // ---- all connections ----

  predicate NoRepeats(ids: seq<nat>) { forall i, j :: 0 <= i < j < |ids| ==> ids[i] != ids[j] }

  /** After the turns of some connections: the state, the events, and the connections to be closed. */
  datatype Round = Round(p: Parser, links: map<nat, Link>, actions: seq<Action>, closing: seq<nat>)

  /** The turns of the connections `ids`, one after another. `got` is what poll(2) has reported of a
      connection's two sockets, `io` what the two sockets do. */
  function ServeAll(p: Parser, links: map<nat, Link>, ids: seq<nat>, got: nat -> (Flags, Flags), io: nat -> (Io, Io)): Option<Round> {
    if ids == [] then Some(Round(p, links, [], []))
    else
      var before, id := ServeAll(p, links, ids[..|ids| - 1], got, io), ids[|ids| - 1];
      if before.None? then None else ServeNext(before.value, id, got(id), io(id))
  }

  /** A turn that ends the process ends the whole round. */
  lemma {:induction false} RoundEnds(p: Parser, links: map<nat, Link>, ids: seq<nat>, n: nat, got: nat -> (Flags, Flags), io: nat -> (Io, Io))
    requires n <= |ids| && ServeAll(p, links, ids[..n], got, io).None?
    ensures ServeAll(p, links, ids, got, io).None?
    decreases |ids|
  {
    if n < |ids| {
      assert ids[..|ids| - 1][..n] == ids[..n];
      RoundEnds(p, links, ids[..|ids| - 1], n, got, io);
    } else {
      assert ids[..n] == ids;
    }
  }

  function ServeNext(r: Round, id: nat, got: (Flags, Flags), io: (Io, Io)): Option<Round> {
    if id !in r.links then None
    else
      var s := Serve(r.p, id, r.links[id], got.0, got.1, io.0, io.1);
      if s.None? then None
      else Some(Round(s.value.p, r.links[id := s.value.k], r.actions + s.value.actions,
                      if s.value.close then r.closing + [id] else r.closing))
  }

  /** The round is a run from `w`, and leaves the connections it has not served as they were. */
  ghost predicate RoundFrom(p0: Parser, w: World, ids: seq<nat>, r: Round, w': World) {
    && ActAll(w, r.actions) == Some(w') && WorldHolds(p0, w')
    && w'.p == r.p && w'.links == r.links && w'.used == w.used && r.links.Keys == w.links.Keys
    && (forall id <- w.links :: id !in ids ==> r.links[id] == w.links[id])
    && NoRepeats(r.closing) && (forall id <- r.closing :: id in ids)
  }

  lemma NextRound(p0: Parser, w: World, ids: seq<nat>, r: Round, w1: World, id: nat, got: (Flags, Flags), io: (Io, Io))
    returns (w': World)
    requires Histories.Fresh(p0) && RoundFrom(p0, w, ids, r, w1) && id in w.links && id !in ids
    requires LinkAnswered(w.links[id], got) && ServeNext(r, id, got, io).Some?
    ensures RoundFrom(p0, w, ids + [id], ServeNext(r, id, got, io).value, w')
  {
    w' := ServeActs(p0, w1, id, got.0, got.1, io.0, io.1);
    ActAllConcat(w, r.actions, Serve(r.p, id, r.links[id], got.0, got.1, io.0, io.1).value.actions);
  }

  lemma {:induction false} ServeAllActs(p0: Parser, w: World, ids: seq<nat>, got: nat -> (Flags, Flags), io: nat -> (Io, Io))
    returns (w': World)
    requires Histories.Fresh(p0) && WorldHolds(p0, w) && NoRepeats(ids)
    requires forall id <- ids :: id in w.links && LinkAnswered(w.links[id], got(id))
    requires ServeAll(w.p, w.links, ids, got, io).Some?
    ensures RoundFrom(p0, w, ids, ServeAll(w.p, w.links, ids, got, io).value, w')
    decreases |ids|
  {
    if ids == [] {
      w' := w;
    } else {
      var before, id := ids[..|ids| - 1], ids[|ids| - 1];
      assert ids == before + [id] && id in ids;
      forall i <- before ensures i in ids && i != id {}
      var r := ServeAll(w.p, w.links, before, got, io).value;
      var w1 := ServeAllActs(p0, w, before, got, io);
      w' := NextRound(p0, w, before, r, w1, id, got(id), io(id));
    }
  }

  predicate LinkAnswered(k: Link, got: (Flags, Flags)) {
    && k.client.b.Valid() && k.server.b.Valid()
    && Answers(got.0, Asked(k, FromClient)) && Answers(got.1, Asked(k, FromServer))
  }

  function CloseAll(ids: seq<nat>): (actions: seq<Action>)
    ensures |actions| == |ids|
  {
    seq(|ids|, i requires 0 <= i < |ids| => Close(ids[i]))
  }

  function Gones(ids: seq<nat>): (es: seq<Event>)
    ensures |es| == |ids|
  {
    seq(|ids|, i requires 0 <= i < |ids| => Gone(ids[i]))
  }

  lemma {:induction false} ClosesAct(w: World, ids: seq<nat>)
    ensures ActAll(w, CloseAll(ids)) == Some(w.(links := w.links - AsSet(ids), trace := w.trace + Gones(ids)))
    decreases |ids|
  {
    if ids == [] {
      assert w.links - AsSet(ids) == w.links && w.trace + Gones(ids) == w.trace;
    } else {
      var before, id := ids[..|ids| - 1], ids[|ids| - 1];
      ClosesAct(w, before);
      assert CloseAll(ids)[..|ids| - 1] == CloseAll(before) && ids == before + [id];
      assert w.links - AsSet(before) - {id} == w.links - AsSet(ids);
      assert w.trace + Gones(before) + [Gone(id)] == w.trace + Gones(ids);
    }
  }

  /** What a turn of the loop leaves, and the events it brings. */
  datatype Turned = Turned(p: Parser, links: map<nat, Link>, events: seq<Action>)

  /** A turn of the loop: the turns of all connections, the closings they ask for, and at most one new
      connection. `None`: the process ends. */
  function LoopTurn(p: Parser, links: map<nat, Link>, ids: seq<nat>, got: nat -> (Flags, Flags), io: nat -> (Io, Io),
                    accepted: Option<nat>): Option<Turned>
  {
    var r := ServeAll(p, links, ids, got, io);
    if r.None? then None else Some(Accepted(Closed(r.value), accepted))
  }

  function Closed(r: Round): Turned {
    Turned(r.p, r.links - AsSet(r.closing), r.actions + CloseAll(r.closing))
  }

  function Accepted(t: Turned, accepted: Option<nat>): Turned {
    if accepted.None? then t
    else t.(links := t.links[accepted.value := NewLink(accepted.value)], events := t.events + [Accept(accepted.value)])
  }

  // ---- the states the relay reaches ----

  /** `actions` is a run of the relay's state machine from its start to `w`. */
  ghost predicate Leads(p0: Parser, actions: seq<Action>, w: World) {
    Histories.Fresh(p0) && ActAll(Begin(p0), actions) == Some(w)
  }

  lemma RoundLeads(p0: Parser, actions: seq<Action>, w: World, ids: seq<nat>, got: nat -> (Flags, Flags), io: nat -> (Io, Io))
    returns (w': World)
    requires Leads(p0, actions, w) && NoRepeats(ids) && ServeAll(w.p, w.links, ids, got, io).Some?
    requires forall id <- ids :: id in w.links && LinkAnswered(w.links[id], got(id))
    ensures var r := ServeAll(w.p, w.links, ids, got, io).value;
      && Leads(p0, actions + r.actions, w')
      && w'.p == r.p && w'.links == r.links && w'.used == w.used && r.links.Keys == w.links.Keys
      && NoRepeats(r.closing) && (forall id <- r.closing :: id in ids)
  {
    ReachableHolds(p0, actions);
    w' := ServeAllActs(p0, w, ids, got, io);
    ActAllConcat(Begin(p0), actions, ServeAll(w.p, w.links, ids, got, io).value.actions);
  }

  lemma ClosingLeads(p0: Parser, actions: seq<Action>, w: World, ids: seq<nat>)
    requires Leads(p0, actions, w)
    ensures Leads(p0, actions + CloseAll(ids), w.(links := w.links - AsSet(ids), trace := w.trace + Gones(ids)))
  {
    ClosesAct(w, ids);
    ActAllConcat(Begin(p0), actions, CloseAll(ids));
  }

  lemma AcceptingLeads(p0: Parser, actions: seq<Action>, w: World, id: nat)
    requires Leads(p0, actions, w) && id !in w.used
    ensures Leads(p0, actions + [Accept(id)], w.(links := w.links[id := NewLink(id)], used := w.used + {id}))
  {
    OneAct(w, Accept(id));
    ActAllConcat(Begin(p0), actions, [Accept(id)]);
  }

  lemma LinksAreUsed(p0: Parser, actions: seq<Action>, w: World)
    requires Leads(p0, actions, w)
    ensures w.links.Keys <= w.used
    ensures forall id <- w.links :: Settled(w.links[id].client.b, HeaderOf(FromClient)) && Settled(w.links[id].server.b, HeaderOf(FromServer))
  {
    ReachableHolds(p0, actions);
    forall id <- w.links ensures LinkHolds(p0.host, id, w.links[id]) {}
  }
}
