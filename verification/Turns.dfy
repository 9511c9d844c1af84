/**
 What a turn of the event loop does, told by the bytes: which of two sockets each buffer waits for, which bytes
 come in and go out, and which connections close.
 */
module Turns {
  import opened Bytes
  import opened SocketBuffers
  import opened Wire
  import opened Tracking
  import Histories
  import opened MessageLoops
  import opened Passes
  import opened LoopRules
  import opened Relay
  import opened Worlds
  import opened WorldRuns
  import opened PollIndex
  import opened EventLoop

  // ---- what is asked ----

  /** A buffer lies between a socket that its bytes come from and one that they go to. Either the first is asked
      to deliver or the second to take: the second if and only if there are bytes and all of them are parsed. */
  predicate AskedForOne(b: Buffer, source: Flags, sink: Flags)
    requires b.Valid()
  {
    source.read != sink.write && (sink.write <==> b.Data() != [] && b.Pending() == [])
  }

  /** ... and each socket is always asked for urgent data. */
  predicate AskedForBoth(k: Link, client: Flags, server: Flags) {
    && k.client.b.Valid() && k.server.b.Valid() && client.pri && server.pri
    && AskedForOne(k.client.b, client, server) && AskedForOne(k.server.b, server, client)
  }

  lemma SettledAsks(k: Link)
    requires Settled(k.client.b, HeaderOf(FromClient)) && Settled(k.server.b, HeaderOf(FromServer))
    ensures AskedForBoth(k, Asked(k, FromClient), Asked(k, FromServer))
  {
  }

  /** In every reachable state, of each connection: so one of its sockets is always asked for something. */
  lemma NeverFrozen(p0: Parser, actions: seq<Action>, w: World, id: nat)
    requires Leads(p0, actions, w) && id in w.links
    ensures var k := w.links[id];
      && k.client.b.Valid() && k.server.b.Valid()
      && AskedForBoth(k, Asked(k, FromClient), Asked(k, FromServer))
      && (Asked(k, FromClient).read || Asked(k, FromServer).write)
      && (Asked(k, FromServer).read || Asked(k, FromClient).write)
  {
    LinksAreUsed(p0, actions, w);
    SettledAsks(w.links[id]);
  }

  // ---- one socket ----

  function Of<T>(pair: (T, T), side: Side): T { if side.FromClient? then pair.0 else pair.1 }

  /** How many bytes a buffer takes: what is free of its store, or what a message of known size still needs. */
  function Room(b: Buffer): int { if b.next.None? then |b.store| - b.read else b.next.value - (b.read - b.written) }

  /** The bytes that a buffer gets of a socket that is read: as many as there are and fit. */
  function Gets(b: Buffer, io: Io): seq<byte> {
    if io.available.None? || Room(b) <= 0 then []
    else if |io.available.value| <= Room(b) then io.available.value
    else io.available.value[..Room(b)]
  }

  /** What of a buffer is parsed. */
  function Ready(b: Buffer): seq<byte> { if b.Valid() then b.Data()[..b.parsed] else [] }

  /** The socket takes what the other side's buffer has parsed, if it is not to be read. */
  predicate EndTakes(k: Link, side: Side, got: Flags) { !got.read && got.write && DirOf(k, Other(side)).b.parsed > 0 }

  /** A read that brings nothing, a write that fails, or, without either, an error that is reported. */
  predicate EndCloses(k: Link, side: Side, got: Flags, io: Io) {
    if got.read then Gets(DirOf(k, side).b, io) == []
    else if EndTakes(k, side, got) then !io.takes
    else got.error || got.pri
  }

  function EndActions(id: nat, k: Link, side: Side, got: Flags, io: Io): seq<Action> {
    if EndCloses(k, side, got, io) then []
    else if got.read then [Read(id, side, Gets(DirOf(k, side).b, io))]
    else if EndTakes(k, side, got) then [Write(id, Other(side))]
    else []
  }

  // ---- one connection ----

  /** The client's socket comes first; the server's is left alone if that closes the connection. */
  predicate Attended(k: Link, side: Side, got: (Flags, Flags), io: (Io, Io)) {
    side.FromClient? || !EndCloses(k, FromClient, got.0, io.0)
  }

  predicate TurnCloses(k: Link, got: (Flags, Flags), io: (Io, Io)) {
    EndCloses(k, FromClient, got.0, io.0) || EndCloses(k, FromServer, got.1, io.1)
  }

  function TurnActions(id: nat, k: Link, got: (Flags, Flags), io: (Io, Io)): seq<Action> {
    EndActions(id, k, FromClient, got.0, io.0)
    + if Attended(k, FromServer, got, io) then EndActions(id, k, FromServer, got.1, io.1) else []
  }

  /** What a side's stream brings in a turn. */
  function Arrived(k: Link, side: Side, got: (Flags, Flags), io: (Io, Io)): seq<byte> {
    if Attended(k, side, got, io) && Of(got, side).read then Gets(DirOf(k, side).b, Of(io, side)) else []
  }

  /** What of a side's bytes the other side's socket is sent in a turn: all that is parsed, or nothing. */
  function Departed(k: Link, side: Side, got: (Flags, Flags), io: (Io, Io)): seq<byte> {
    var sink := Other(side);
    if Attended(k, sink, got, io) && EndTakes(k, sink, Of(got, sink)) && Of(io, sink).takes then Ready(DirOf(k, side).b) else []
  }

  /** The two streams after a turn. */
  predicate Exchanged(k: Link, k': Link, got: (Flags, Flags), io: (Io, Io)) {
    && k'.client.received == k.client.received + Arrived(k, FromClient, got, io)
    && k'.server.received == k.server.received + Arrived(k, FromServer, got, io)
    && k'.client.sent == k.client.sent + Departed(k, FromClient, got, io)
    && k'.server.sent == k.server.sent + Departed(k, FromServer, got, io)
  }

  /** What is done for one socket, and what it leaves alone. */
  predicate EndDone(id: nat, k: Link, side: Side, got: Flags, io: Io, s: Served)
    requires k.client.b.Valid() && k.server.b.Valid()
  {
    var own, own', other, other' := DirOf(k, side), DirOf(s.k, side), DirOf(k, Other(side)), DirOf(s.k, Other(side));
    && s.close == EndCloses(k, side, got, io) && s.actions == EndActions(id, k, side, got, io)
    && own'.sent == own.sent && other'.received == other.received
    && own'.received == own.received + (if got.read then Gets(own.b, io) else [])
    && other'.sent == other.sent + (if EndTakes(k, side, got) && io.takes then Ready(other.b) else [])
    && (!got.read ==> own'.b == own.b)
    && (!EndTakes(k, side, got) ==> other'.b == other.b)
  }

  lemma GivenIsGets(b: Buffer, io: Io)
    requires b.Valid() && Given(b, io).Some?
    ensures Given(b, io).value == Gets(b, io)
  {
  }

  lemma ServeEndDone(p: Parser, id: nat, k: Link, side: Side, got: Flags, io: Io)
    requires k.client.b.Valid() && k.server.b.Valid() && Answers(got, Asked(k, side))
    requires ServeEnd(side, p, id, k, got, io).Some?
    ensures EndDone(id, k, side, got, io, ServeEnd(side, p, id, k, got, io).value)
  {
    if got.read {
      GivenIsGets(DirOf(k, side).b, io);
    }
  }

  /** A connection's turn, whatever is reported of what was asked: which bytes each stream brings and takes, what
      is logged as having happened, and whether the connection closes. */
  lemma ServeDone(p: Parser, id: nat, k: Link, got: (Flags, Flags), io: (Io, Io))
    requires LinkAnswered(k, got) && Serve(p, id, k, got.0, got.1, io.0, io.1).Some?
    ensures var s := Serve(p, id, k, got.0, got.1, io.0, io.1).value;
      && (s.close <==> TurnCloses(k, got, io)) && s.actions == TurnActions(id, k, got, io) && Exchanged(k, s.k, got, io)
  {
    var first := ServeEnd(FromClient, p, id, k, got.0, io.0).value;
    ServeEndDone(p, id, k, FromClient, got.0, io.0);
    if !first.close {
      SecondEndAsked(p, id, k, got.0, got.1, io.0);
      ServeEndDone(first.p, id, first.k, FromServer, got.1, io.1);
      BothDone(id, k, got, io, first, ServeEnd(FromServer, first.p, id, first.k, got.1, io.1).value);
    }
  }

  /** The second socket finds its buffers as they were: neither was asked for both. */
  lemma BothDone(id: nat, k: Link, got: (Flags, Flags), io: (Io, Io), first: Served, second: Served)
    requires LinkAnswered(k, got) && first.k.client.b.Valid() && first.k.server.b.Valid()
    requires EndDone(id, k, FromClient, got.0, io.0, first) && !first.close
    requires EndDone(id, first.k, FromServer, got.1, io.1, second)
    ensures (second.close <==> TurnCloses(k, got, io)) && Exchanged(k, second.k, got, io)
    ensures first.actions + second.actions == TurnActions(id, k, got, io)
  {
  }

  predicate Sound(k: Link) { k.client.b.Valid() && k.server.b.Valid() && Live(k.c) }

  lemma ReadEndHolds(side: Side, p: Parser, id: nat, k: Link, chunk: seq<byte>)
    requires LinkHolds(p.host, id, k) && ReadEnd(side, p, id, k, chunk).Some?
    ensures LinkHolds(p.host, id, ReadEnd(side, p, id, k, chunk).value.k)
  {
    if chunk != [] {
      if k.c.status.Open? {
        OpenReadHolds(p, id, k, side, chunk);
      } else if side.FromClient? {
        FirstReadHolds(p, id, k, chunk);
      } else {
        AnswerHolds(p, id, k, chunk);
      }
    }
  }

  lemma FirstEndHolds(p: Parser, id: nat, k: Link, got: Flags, io: Io)
    requires LinkHolds(p.host, id, k) && Answers(got, Asked(k, FromClient)) && ServeEnd(FromClient, p, id, k, got, io).Some?
    ensures var k' := ServeEnd(FromClient, p, id, k, got, io).value.k; Sound(k') && LinkHolds(p.host, id, k')
  {
    if got.read {
      ReadEndHolds(FromClient, p, id, k, Given(k.client.b, io).value);
    } else if got.write && k.server.b.WriteReady() {
      FlushHolds(p.host, id, k, FromServer);
    }
  }

  /** What the first socket leaves is what the second can be served with. */
  lemma BetweenEnds(p: Parser, id: nat, k: Link, client: Flags, server: Flags, io: Io)
    requires LinkHolds(p.host, id, k) && ServeEnd(FromClient, p, id, k, client, io).Some?
    requires Answers(client, Asked(k, FromClient)) && Answers(server, Asked(k, FromServer))
    ensures var k' := ServeEnd(FromClient, p, id, k, client, io).value.k; Sound(k') && Answers(server, Asked(k', FromServer))
  {
    FirstEndHolds(p, id, k, client, io);
    SecondEndAsked(p, id, k, client, server, io);
  }

  /** A socket is read, and the size of the read has wrapped or it brings bytes. */
  predicate ReadsWith(k: Link, side: Side, got: Flags, io: Io) {
    got.read && (Room(DirOf(k, side).b) < 0 || Gets(DirOf(k, side).b, io) != [])
  }

  lemma EndFails(p: Parser, id: nat, k: Link, side: Side, got: Flags, io: Io)
    requires k.client.b.Valid() && k.server.b.Valid() && ServeEnd(side, p, id, k, got, io).None?
    ensures ReadsWith(k, side, got, io)
  {
    if Given(DirOf(k, side).b, io).Some? {
      GivenIsGets(DirOf(k, side).b, io);
    }
  }

  lemma SecondReads(p: Parser, id: nat, k: Link, got: (Flags, Flags), io: (Io, Io), k': Link)
    requires LinkAnswered(k, got) && ServeEnd(FromClient, p, id, k, got.0, io.0).Some?
    requires k' == ServeEnd(FromClient, p, id, k, got.0, io.0).value.k && ReadsWith(k', FromServer, got.1, io.1)
    ensures ReadsWith(k, FromServer, got.1, io.1)
  {
    ServeEndDone(p, id, k, FromClient, got.0, io.0);
  }

  /** A turn ends the process only where a read does: one whose size has wrapped, or whose bytes cannot be logged. */
  lemma OnlyReadsEnd(p: Parser, id: nat, k: Link, got: (Flags, Flags), io: (Io, Io))
    requires LinkHolds(p.host, id, k) && LinkAnswered(k, got) && Serve(p, id, k, got.0, got.1, io.0, io.1).None?
    ensures ReadsWith(k, FromClient, got.0, io.0) || ReadsWith(k, FromServer, got.1, io.1)
  {
    var first := ServeEnd(FromClient, p, id, k, got.0, io.0);
    if first.None? {
      EndFails(p, id, k, FromClient, got.0, io.0);
    } else {
      FirstEndHolds(p, id, k, got.0, io.0);
      EndFails(first.value.p, id, first.value.k, FromServer, got.1, io.1);
      SecondReads(p, id, k, got, io, first.value.k);
    }
  }

  // ---- all connections ----

  type Reports = nat -> (Flags, Flags)
  type Sockets = nat -> (Io, Io)

  function Joined(ids: seq<nat>, acts: nat -> seq<Action>): seq<Action> {
    if ids == [] then [] else Joined(ids[..|ids| - 1], acts) + acts(ids[|ids| - 1])
  }

  function Chosen(ids: seq<nat>, closes: nat -> bool): (closing: seq<nat>)
    ensures forall id :: id in closing <==> id in ids && closes(id)
  {
    if ids == [] then []
    else
      var id := ids[|ids| - 1];
      Chosen(ids[..|ids| - 1], closes) + if closes(id) then [id] else []
  }

  /** What the turns of single connections do. */
  datatype Doing = Doing(acts: nat -> seq<Action>, closes: nat -> bool, leaves: (nat, Link) -> bool)

  ghost predicate DoneEach(links: map<nat, Link>, got: Reports, io: Sockets, d: Doing) {
    forall p, id {:trigger Serve(p, id, links[id], got(id).0, got(id).1, io(id).0, io(id).1)} :: id in links ==>
      var s := Serve(p, id, links[id], got(id).0, got(id).1, io(id).0, io(id).1);
      s.Some? ==> s.value.actions == d.acts(id) && s.value.close == d.closes(id) && d.leaves(id, s.value.k)
  }

  predicate RoundDone(links: map<nat, Link>, ids: seq<nat>, d: Doing, r: Round) {
    && r.links.Keys == links.Keys && r.actions == Joined(ids, d.acts) && r.closing == Chosen(ids, d.closes)
    && (forall id <- ids :: id in links && d.leaves(id, r.links[id]))
    && (forall id <- links :: id !in ids ==> r.links[id] == links[id])
  }

  lemma NextDone(links: map<nat, Link>, ids: seq<nat>, id: nat, got: Reports, io: Sockets, d: Doing, r: Round)
    requires DoneEach(links, got, io, d) && id in links && id !in ids
    requires RoundDone(links, ids, d, r) && ServeNext(r, id, got(id), io(id)).Some?
    ensures RoundDone(links, ids + [id], d, ServeNext(r, id, got(id), io(id)).value)
  {
    assert (ids + [id])[..|ids|] == ids;
  }

  lemma {:induction false} ServeAllDone(p: Parser, links: map<nat, Link>, ids: seq<nat>, got: Reports, io: Sockets, d: Doing)
    requires DoneEach(links, got, io, d) && NoRepeats(ids) && (forall id <- ids :: id in links)
    requires ServeAll(p, links, ids, got, io).Some?
    ensures RoundDone(links, ids, d, ServeAll(p, links, ids, got, io).value)
    decreases |ids|
  {
    if ids != [] {
      var before, id := ids[..|ids| - 1], ids[|ids| - 1];
      assert ids == before + [id] && id in ids;
      forall i <- before ensures i in links && i != id { assert i in ids; }
      ServeAllDone(p, links, before, got, io, d);
      NextDone(links, before, id, got, io, d, ServeAll(p, links, before, got, io).value);
    }
  }

  /** What each connection's turn does, told by the bytes. */
  function Exchanges(links: map<nat, Link>, got: Reports, io: Sockets): Doing {
    Doing(id => if id in links then TurnActions(id, links[id], got(id), io(id)) else [],
          id => id in links && TurnCloses(links[id], got(id), io(id)),
          (id, k) => id in links && Exchanged(links[id], k, got(id), io(id)))
  }

  lemma ExchangesAreDone(links: map<nat, Link>, got: Reports, io: Sockets)
    requires forall id <- links :: LinkAnswered(links[id], got(id))
    ensures DoneEach(links, got, io, Exchanges(links, got, io))
  {
    forall p, id | id in links && Serve(p, id, links[id], got(id).0, got(id).1, io(id).0, io(id).1).Some? {
      ServeDone(p, id, links[id], got(id), io(id));
    }
  }

  /** A turn of the loop: every connection's two streams have brought and taken what its turn does, exactly the
      connections that it closes are gone, and at most one is new. */
  predicate TurnDone(links: map<nat, Link>, ids: seq<nat>, d: Doing, accepted: Option<nat>, t: Turned) {
    && t.links.Keys == (set id <- links | !d.closes(id)) + (if accepted.Some? then {accepted.value} else {})
    && (forall id <- links :: id in t.links ==> d.leaves(id, t.links[id]))
    && t.events == Joined(ids, d.acts) + CloseAll(Chosen(ids, d.closes)) + (if accepted.Some? then [Accept(accepted.value)] else [])
    && (accepted.Some? ==> t.links[accepted.value] == NewLink(accepted.value))
  }

  lemma LoopTurnDone(p: Parser, links: map<nat, Link>, ids: seq<nat>, got: Reports, io: Sockets, d: Doing, accepted: Option<nat>)
    requires DoneEach(links, got, io, d) && NoRepeats(ids) && (forall id :: id in ids <==> id in links)
    requires accepted.Some? ==> accepted.value !in links
    requires LoopTurn(p, links, ids, got, io, accepted).Some?
    ensures TurnDone(links, ids, d, accepted, LoopTurn(p, links, ids, got, io, accepted).value)
  {
    ServeAllDone(p, links, ids, got, io, d);
    var r := ServeAll(p, links, ids, got, io).value;
    assert AsSet(r.closing) == set id <- links | d.closes(id);
  }

  /** Writing, closing and errors never end the process: a turn of the loop that does has read somewhere. */
  lemma {:induction false} OnlyReadsEndTurns(p0: Parser, w: World, ids: seq<nat>, got: Reports, io: Sockets) returns (id: nat)
    requires Histories.Fresh(p0) && WorldHolds(p0, w) && NoRepeats(ids)
    requires forall id <- ids :: id in w.links && LinkAnswered(w.links[id], got(id))
    requires ServeAll(w.p, w.links, ids, got, io).None?
    ensures id in ids
    ensures ReadsWith(w.links[id], FromClient, got(id).0, io(id).0) || ReadsWith(w.links[id], FromServer, got(id).1, io(id).1)
    decreases |ids|
  {
    var before, last := ids[..|ids| - 1], ids[|ids| - 1];
    forall i <- before ensures i in ids && i != last {}
    if ServeAll(w.p, w.links, before, got, io).None? {
      id := OnlyReadsEndTurns(p0, w, before, got, io);
    } else {
      id := last;
      var w' := ServeAllActs(p0, w, before, got, io);
      HeldLink(p0, w', last);
      OnlyReadsEnd(w'.p, last, w.links[last], got(last), io(last));
    }
  }

  lemma HeldLink(p0: Parser, w: World, id: nat)
    requires WorldHolds(p0, w) && id in w.links
    ensures LinkHolds(w.p.host, id, w.links[id])
  {
    assert LinkHolds(p0.host, id, w.links[id]);
  }
}
