/**
 The event loop as an object: its poll table, its connections and the parser they share.
 */
module ProxyServer {
  import opened Bytes
  import opened Wire
  import opened Tracking
  import Histories
  import opened Worlds
  import opened PollIndex
  import opened EventLoop
  import opened Turns

  /** What the system decides in one turn of the loop: what poll(2) reports of a descriptor that it is asked
      about, what each socket gives and takes, and which new descriptors, if any, an accepted client and its
      server connection get, none of them in use. */
  datatype Os = Os(poll: (nat, Flags) -> Flags, io: nat -> Io, open: set<nat> -> (Option<nat>, Option<nat>))

  /** poll(2) reports no reading or writing that an entry does not ask for. */
  ghost predicate ReportsAsked(os: Os) { forall fd, asked {:trigger os.poll(fd, asked)} :: Answers(os.poll(fd, asked), asked) }

  ghost predicate GivesFreshFds(os: Os, listenerFd: nat) {
    forall used: set<nat> {:trigger os.open(used)} ::
      && (os.open(used).0.Some? ==> listenerFd < os.open(used).0.value && os.open(used).0.value !in used)
      && (os.open(used).1.Some? ==> listenerFd < os.open(used).1.value && os.open(used).1.value !in used)
      && (os.open(used).0.Some? ==> os.open(used).1 != os.open(used).0)
  }

  /** The system has a descriptor for a waiting client and one for its server, next to those in use. */
  predicate BothFdsHad(os: Os, used: set<nat>) { os.open(used).0.Some? && os.open(used).1.Some? }

  /** `got` and `io` are the system's answers to what the two sockets of each connection are asked for. */
  ghost predicate SystemAnswers(os: Os, ends: map<nat, Ends>, links: map<nat, Link>, got: nat -> (Flags, Flags), io: nat -> (Io, Io))
    requires ends.Keys == links.Keys
  {
    forall id <- links ::
      && links[id].client.b.Valid() && links[id].server.b.Valid()
      && got(id) == (os.poll(ends[id].client, Asked(links[id], FromClient)), os.poll(ends[id].server, Asked(links[id], FromServer)))
      && io(id) == (os.io(ends[id].client), os.io(ends[id].server))
  }

  lemma AnswersToLinks(os: Os, ends: map<nat, Ends>, links: map<nat, Link>, got: nat -> (Flags, Flags), io: nat -> (Io, Io))
    requires ends.Keys == links.Keys && ReportsAsked(os) && SystemAnswers(os, ends, links, got, io)
    ensures DoneEach(links, got, io, Exchanges(links, got, io))
  {
    ExchangesAreDone(links, got, io);
  }

  class ProxyX11Server {
    const table: PollTable
    ghost const p0: Parser
    var parser: Parser
    var links: map<nat, Link>
    var nextId: nat
    ghost var used: set<nat>
    ghost var trace: seq<Event>
    ghost var actions: seq<Action>

    ghost function View(): World
      reads this
    {
      World(parser, links, used, trace)
    }

    /** The object's state is one that the relay's state machine reaches. */
    ghost predicate Reached()
      reads this
    {
      Leads(p0, actions, View())
    }

    ghost predicate Valid()
      reads this, table
    {
      table.Valid() && table.ends.Keys == links.Keys && Reached() && forall id <- used :: id < nextId
    }

    constructor (listener: nat, p: Parser)
      requires Histories.Fresh(p)
      ensures Valid() && p0 == p && View() == Begin(p) && fresh(table)
    {
      table := new PollTable(listener);
      p0, parser, links, nextId, used, trace, actions := p, p, map[], 0, {}, [], [];
    }

    lemma BuffersAreReady()
      requires Reached()
      ensures AllValid(links)
      ensures forall id <- links :: links[id].client.b.ReadReady() || links[id].client.b.WriteReady()
      ensures forall id <- links :: links[id].server.b.ReadReady() || links[id].server.b.WriteReady()
    {
      LinksAreUsed(p0, actions, View());
    }

    /** What each connection's two sockets are asked for. */
    ghost predicate AskedFor(id: nat)
      requires Valid() && id in links
      reads this, table
    {
      var k := links[id];
      && k.client.b.Valid() && k.server.b.Valid()
      && table.Entry(table.ends[id].client).events == Asked(k, FromClient)
      && table.Entry(table.ends[id].server).events == Asked(k, FromServer)
    }

    /** Each buffer of a connection has one of its two sockets asked for: to deliver, or, once there are bytes and
        all of them are parsed, to take them. */
    ghost predicate WaitsForOne(id: nat)
      requires Valid() && id in links
      reads this, table
    {
      AskedForBoth(links[id], table.Entry(table.ends[id].client).events, table.Entry(table.ends[id].server).events)
    }

    lemma AskedIsForOne(id: nat)
      requires Valid() && id in links && AskedFor(id)
      ensures WaitsForOne(id)
    {
      NeverFrozen(p0, actions, View(), id);
    }

    /** Asks poll(2) for one of reading and writing of each buffer. The assertion that a buffer that is
        not ready for reading is ready for writing holds. */
    method UpdatePollFlags()
      requires Valid()
      modifies table`pfds
      ensures Valid() && |table.pfds| == |old(table.pfds)|
      ensures forall id <- links :: AskedFor(id)
      ensures forall id <- links :: WaitsForOne(id)
      ensures forall i :: 0 <= i < |table.pfds| ==> table.pfds[i] == old(table.pfds)[i].(events := table.pfds[i].events)
      ensures table.Entry(table.listenerFd) == old(table.Entry(table.listenerFd))
    {
      BuffersAreReady();
      var asks := AsksOf(links);
      table.SetAsked(asks);
      forall id <- links ensures AskedFor(id) {
        assert table.AsksFor(id, asks);
      }
      forall id <- links ensures WaitsForOne(id) {
        AskedIsForOne(id);
      }
    }

    /** What poll(2) has reported of each connection's two sockets, and what the sockets do. */
    ghost predicate Reports(os: Os, got: nat -> (Flags, Flags), io: nat -> (Io, Io))
      requires table.Valid() && table.ends.Keys == links.Keys
      reads this, table
    {
      forall id <- links ::
        && got(id) == (table.Entry(table.ends[id].client).revents, table.Entry(table.ends[id].server).revents)
        && io(id) == (os.io(table.ends[id].client), os.io(table.ends[id].server))
    }

    /** Every connection's turn, in whatever order `ids` they come. */
    method ServeConnections(ids: seq<nat>, os: Os, ghost got: nat -> (Flags, Flags), ghost io: nat -> (Io, Io))
      returns (ok: bool, closing: seq<nat>, ghost events: seq<Action>)
      requires table.Valid() && table.ends.Keys == links.Keys && Reports(os, got, io)
      requires forall id <- ids :: id in links
      modifies this`parser, this`links
      ensures old(ServeAll(parser, links, ids, got, io)) == if ok then Some(Round(parser, links, events, closing)) else None
    {
      closing, events := [], [];
      for i := 0 to |ids|
        invariant links.Keys == old(links).Keys
        invariant old(ServeAll(parser, links, ids[..i], got, io)) == Some(Round(parser, links, events, closing))
      {
        var id := ids[i];
        assert ids[..i + 1][..i] == ids[..i];
        var ends := table.ends[id];
        var client, server := table.pfds[table.index[ends.client]].revents, table.pfds[table.index[ends.server]].revents;
        var s := Serve(parser, id, links[id], client, server, os.io(ends.client), os.io(ends.server));
        if s.None? {
          assert ids[..i + 1][..i] == ids[..i];
          RoundEnds(old(parser), old(links), ids, i + 1, got, io);
          return false, closing, events;
        }
        parser, links, events := s.value.p, links[id := s.value.k], events + s.value.actions;
        if s.value.close {
          closing := closing + [id];
        }
      }
      assert ids[..|ids|] == ids;
      return true, closing, events;
    }

    method ForgetLinks(closing: seq<nat>)
      requires Reached()
      modifies this`links, this`trace, this`actions
      ensures Reached() && actions == old(actions) + CloseAll(closing) && links == old(links) - AsSet(closing)
    {
      ClosingLeads(p0, actions, View(), closing);
      links := links - AsSet(closing);
      trace, actions := trace + Gones(closing), actions + CloseAll(closing);
    }

    /** Closes connections, and gives up their unsent bytes. */
    method CloseConnections(closing: seq<nat>)
      requires Valid() && NoRepeats(closing) && forall id <- closing :: id in links
      modifies this`links, this`trace, this`actions, table`pfds, table`index, table`ends
      ensures Valid() && actions == old(actions) + CloseAll(closing) && links == old(links) - AsSet(closing)
      ensures table.Entry(table.listenerFd) == old(table.Entry(table.listenerFd))
      ensures forall fd :: fd in table.index <==> fd in old(table.index) && !EndOf(old(table.ends), closing, fd)
    {
      table.CloseConnections(closing);
      ForgetLinks(closing);
    }

    method AddLink(id: nat)
      requires Reached() && id !in used && id < nextId && forall i <- used :: i < nextId
      modifies this`links, this`used, this`actions
      ensures (forall i <- used :: i < nextId) && links.Keys == old(links.Keys) + {id}
      ensures Reached() && actions == old(actions) + [Accept(id)] && links == old(links)[id := NewLink(id)] && used == old(used) + {id}
    {
      AcceptingLeads(p0, actions, View(), id);
      links := links[id := NewLink(id)];
      used, actions := used + {id}, actions + [Accept(id)];
    }

    /** A serial number that has never been used. */
    method NewSerial() returns (id: nat)
      requires Valid()
      modifies this`nextId
      ensures Valid() && id == old(nextId) && id !in used && id !in links && id < nextId
    {
      LinksAreUsed(p0, actions, View());
      id := nextId;
      nextId := nextId + 1;
    }

    /** Polls both ends of connection `id` and adds it, if both could be had. */
    method Connect(id: nat, accepted: Option<nat>, connected: Option<nat>) returns (ok: bool)
      requires Valid() && id !in used && id !in links && id < nextId
      requires accepted.Some? ==> table.listenerFd < accepted.value && accepted.value !in table.index
      requires connected.Some? ==> table.listenerFd < connected.value && connected.value !in table.index
      requires accepted.Some? && connected.Some? ==> accepted.value != connected.value
      modifies this`links, this`used, this`actions, table`pfds, table`index, table`ends
      ensures Valid() && ok == (accepted.Some? && connected.Some?)
      ensures ok ==> links == old(links)[id := NewLink(id)] && actions == old(actions) + [Accept(id)]
      ensures !ok ==> links == old(links) && actions == old(actions) && table.index == old(table.index)
    {
      ok := table.OpenConnection(id, accepted, connected);
      if ok {
        assert table.ends.Keys == old(table.ends.Keys) + {id};
        AddLink(id);
      }
    }

    /** Opens a connection for a waiting client, if and only if both sockets can be had. */
    method OpenConnection(os: Os) returns (ok: bool)
      requires Valid() && GivesFreshFds(os, table.listenerFd)
      modifies this`links, this`nextId, this`used, this`actions, table`pfds, table`index, table`ends
      ensures Valid() && old(nextId) !in old(links)
      ensures ok == BothFdsHad(os, old(table.index).Keys)
      ensures ok ==> links == old(links)[old(nextId) := NewLink(old(nextId))] && actions == old(actions) + [Accept(old(nextId))]
      ensures !ok ==> links == old(links) && actions == old(actions) && table.index == old(table.index)
    {
      var id := NewSerial();
      var fds := os.open(table.index.Keys);
      ok := Connect(id, fds.0, fds.1);
    }

    /** poll(2) has reported of every connection no more than it was asked. */
    ghost predicate Polled()
      requires table.Valid() && table.ends.Keys == links.Keys
      reads this, table
    {
      forall id <- links ::
        LinkAnswered(links[id], (table.Entry(table.ends[id].client).revents, table.Entry(table.ends[id].server).revents))
    }

    ghost method NoteReports(os: Os) returns (got: nat -> (Flags, Flags), io: nat -> (Io, Io))
      requires table.Valid() && table.ends.Keys == links.Keys
      ensures Reports(os, got, io)
    {
      var reports := map id <- links ::
        (table.Entry(table.ends[id].client).revents, table.Entry(table.ends[id].server).revents);
      var sockets := map id <- links :: (os.io(table.ends[id].client), os.io(table.ends[id].server));
      got := id => if id in reports then reports[id] else (NO_FLAGS, NO_FLAGS);
      io := id => if id in sockets then sockets[id] else (Io(None, false), Io(None, false));
    }

    /** The turns of all connections are a run of the relay's state machine. */
    method ServeRound(ids: seq<nat>, os: Os, ghost got: nat -> (Flags, Flags), ghost io: nat -> (Io, Io))
      returns (ok: bool, closing: seq<nat>, ghost events: seq<Action>)
      requires table.Valid() && table.ends.Keys == links.Keys && Reports(os, got, io)
      requires Reached() && forall id <- links :: LinkAnswered(links[id], got(id))
      requires NoRepeats(ids) && forall id <- ids :: id in links
      modifies this`parser, this`links, this`trace, this`actions
      ensures ok ==> Reached() && actions == old(actions) + events && links.Keys == old(links).Keys
      ensures old(ServeAll(parser, links, ids, got, io)) == if ok then Some(Round(parser, links, events, closing)) else None
      ensures ok ==> NoRepeats(closing) && forall id <- closing :: id in links
    {
      ghost var w := View();
      ok, closing, events := ServeConnections(ids, os, got, io);
      if ok {
        ghost var w' := RoundLeads(p0, actions, w, ids, got, io);
        trace, actions := w'.trace, actions + events;
      }
    }

    method ServeAndClose(ids: seq<nat>, os: Os, ghost got: nat -> (Flags, Flags), ghost io: nat -> (Io, Io))
      returns (ok: bool, ghost events: seq<Action>)
      requires Valid() && Reports(os, got, io) && forall id <- links :: LinkAnswered(links[id], got(id))
      requires NoRepeats(ids) && forall id <- ids :: id in links
      modifies this`parser, this`links, this`trace, this`actions, table`pfds, table`index, table`ends
      ensures ok ==> Valid() && actions == old(actions) + events
      ensures LoopTurn(old(parser), old(links), ids, got, io, None) == if ok then Some(Turned(parser, links, events)) else None
      ensures ok ==> table.Entry(table.listenerFd) == old(table.Entry(table.listenerFd))
    {
      var closing;
      ok, closing, events := ServeRound(ids, os, got, io);
      if ok {
        Regroup(old(actions), events, CloseAll(closing));
        CloseConnections(closing);
        events := events + CloseAll(closing);
      }
    }

    /** One turn of the loop: serves every connection, closes those that are to be closed, and accepts a
        waiting client. It is a run of the relay's state machine, and the poll table and the connections
        still agree. `ok == false`: the process has ended. */
    method ProcessPolledSockets(ids: seq<nat>, os: Os, ghost got: nat -> (Flags, Flags), ghost io: nat -> (Io, Io))
      returns (ok: bool, accepted: Option<nat>, ghost events: seq<Action>)
      requires Valid() && Polled() && Reports(os, got, io) && NoRepeats(ids) && (forall id :: id in ids <==> id in links)
      requires GivesFreshFds(os, table.listenerFd)
      modifies this, table`pfds, table`index, table`ends
      ensures ok ==> Valid() && actions == old(actions) + events
      ensures LoopTurn(old(parser), old(links), ids, got, io, accepted) == if ok then Some(Turned(parser, links, events)) else None
      ensures accepted.Some? ==> accepted.value == old(nextId) && old(table.Entry(table.listenerFd)).revents.read
      ensures ok && accepted.None? && old(table.Entry(table.listenerFd)).revents.read ==> !BothFdsHad(os, table.index.Keys)
    {
      accepted := None;
      ok, events := ServeAndClose(ids, os, got, io);
      if ok && table.pfds[table.index[table.listenerFd]].revents.read {
        var id := nextId;
        var open := OpenConnection(os);
        if open {
          Regroup(old(actions), events, [Accept(id)]);
          accepted, events := Some(id), events + [Accept(id)];
        }
      }
    }

    /** Every socket's entry reports what the system says of what it is asked for. */
    ghost predicate Told(os: Os)
      requires table.Valid() && table.ends.Keys == links.Keys
      reads this, table
    {
      forall id <- links :: var k := links[id];
        && k.client.b.Valid() && k.server.b.Valid()
        && table.Entry(table.ends[id].client).revents == os.poll(table.ends[id].client, Asked(k, FromClient))
        && table.Entry(table.ends[id].server).revents == os.poll(table.ends[id].server, Asked(k, FromServer))
    }

    method PollSockets(os: Os)
      requires Valid() && forall id <- links :: AskedFor(id)
      modifies table`pfds
      ensures Valid() && Told(os)
    {
      table.Poll(os.poll);
    }

    lemma ToldIsPolled(os: Os)
      requires table.Valid() && table.ends.Keys == links.Keys && Told(os) && ReportsAsked(os)
      ensures Polled()
    {
    }

    lemma ToldAnswers(os: Os, got: nat -> (Flags, Flags), io: nat -> (Io, Io))
      requires table.Valid() && table.ends.Keys == links.Keys && Told(os) && Reports(os, got, io)
      ensures SystemAnswers(os, table.ends, links, got, io)
    {
    }

    /** Asks for what the buffers are ready for, and polls. */
    method PollForReadiness(os: Os) returns (ghost got: nat -> (Flags, Flags), ghost io: nat -> (Io, Io))
      requires Valid() && ReportsAsked(os)
      modifies table`pfds
      ensures Valid() && Polled() && Reports(os, got, io) && SystemAnswers(os, table.ends, links, got, io)
    {
      UpdatePollFlags();
      PollSockets(os);
      ToldIsPolled(os);
      got, io := NoteReports(os);
      ToldAnswers(os, got, io);
    }

    /** A turn on reports that answer what was asked, told by the bytes as well. */
    method ProcessAnswers(ids: seq<nat>, os: Os, ghost got: nat -> (Flags, Flags), ghost io: nat -> (Io, Io))
      returns (ok: bool, accepted: Option<nat>, ghost events: seq<Action>)
      requires Valid() && Polled() && Reports(os, got, io) && NoRepeats(ids) && (forall id :: id in ids <==> id in links)
      requires GivesFreshFds(os, table.listenerFd) && DoneEach(links, got, io, Exchanges(links, got, io))
      modifies this, table`pfds, table`index, table`ends
      ensures ok ==> Valid() && actions == old(actions) + events
      ensures LoopTurn(old(parser), old(links), ids, got, io, accepted) == if ok then Some(Turned(parser, links, events)) else None
      ensures ok ==> TurnDone(old(links), ids, Exchanges(old(links), got, io), accepted, Turned(parser, links, events))
    {
      ghost var before, p, d := links, parser, Exchanges(links, got, io);
      LinksAreUsed(p0, actions, View());
      ok, accepted, events := ProcessPolledSockets(ids, os, got, io);
      if ok {
        LoopTurnDone(p, before, ids, got, io, d, accepted);
      }
    }

    /** The loop once more: polls, and deals with the reports. Whatever the system reports and does is a run
        of the relay's state machine, and moves exactly the bytes that it says. */
    method NextTurn(ids: seq<nat>, os: Os)
      returns (ok: bool, accepted: Option<nat>, ghost got: nat -> (Flags, Flags), ghost io: nat -> (Io, Io), ghost events: seq<Action>)
      requires Valid() && NoRepeats(ids) && (forall id :: id in ids <==> id in links)
      requires GivesFreshFds(os, table.listenerFd) && ReportsAsked(os)
      modifies this, table`pfds, table`index, table`ends
      ensures ok ==> Valid() && actions == old(actions) + events
      ensures SystemAnswers(os, old(table.ends), old(links), got, io)
      ensures LoopTurn(old(parser), old(links), ids, got, io, accepted) == if ok then Some(Turned(parser, links, events)) else None
      ensures ok ==> TurnDone(old(links), ids, Exchanges(old(links), got, io), accepted, Turned(parser, links, events))
    {
      ghost var ends, before := table.ends, links;
      got, io := PollForReadiness(os);
      assert SystemAnswers(os, ends, before, got, io);
      AnswersToLinks(os, ends, before, got, io);
      ok, accepted, events := ProcessAnswers(ids, os, got, io);
    }
  }
}
