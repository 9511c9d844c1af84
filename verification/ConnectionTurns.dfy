/**
 One connection's turn of the event loop on the objects themselves: reading into a buffer and logging what it
 then holds, or writing what the other buffer has parsed. The objects stand for a link of the state machine.
 */
module ConnectionTurns {
  import opened Bytes
  import opened SocketBuffers
  import opened Wire
  import opened Tracking
  import opened MessageLoops
  import opened Relay
  import opened Worlds
  import opened PollIndex
  import opened EventLoop
  import opened Turns
  import opened ProtocolParser

  /** The connection and its two buffers are in the state that the link says. */
  ghost predicate Stands(conn: Connection, k: Link)
    reads conn, conn.clientBuffer, conn.clientBuffer.buffer, conn.serverBuffer, conn.serverBuffer.buffer
  {
    conn.Apart() && conn.View() == k.c && conn.clientBuffer.View() == k.client.b && conn.serverBuffer.View() == k.server.b
  }

  /** Reads what the socket has to give. `None`: the size asked for wraps. No bytes: the read has failed, or
      the stream has ended. */
  method Fill(buffer: SocketBuffer, io: Io) returns (chunk: Option<seq<byte>>)
    requires buffer.Valid()
    modifies buffer, buffer.buffer
    ensures chunk == Given(old(buffer.View()), io)
    ensures buffer.Valid() && (buffer.buffer == old(buffer.buffer) || fresh(buffer.buffer))
    ensures chunk.Some? && chunk.value != [] ==>
      buffer.View() == Append(old(buffer.View()), chunk.value, BytesToRead(old(buffer.View())).value)
  {
    var want := buffer.NextReadSize();
    if want.None? {
      return None;
    }
    var received := if io.available.None? then None else Some(Taken(io.available.value, want.value));
    var n, failed := buffer.Read(want.value, received);
    return Some(if failed then [] else received.value);
  }

  /** A read that the event loop has asked for, as the pass over what the buffer then holds. */
  lemma ReceiveIsPass(side: Side, p: Parser, c: Conn, d: Dir, chunk: seq<byte>)
    requires d.b.Valid() && d.b.ReadReady() && chunk != [] && BytesToRead(d.b).Some? && |chunk| <= BytesToRead(d.b).value
    ensures var b := Append(d.b, chunk, BytesToRead(d.b).value); var r := Pass(RulesOf(side), p, Refreshed(side, c, b), b, b.written);
      Receive(side, p, c, d, chunk)
      == if r.None? then None else Some(Moved(r.value.p, r.value.c, History(side, c, d, chunk, r.value)))
  {
  }

  /** The objects are in the state that a turn leaves, unless the connection is to be closed. */
  ghost predicate Serves(parser: X11ProtocolParser, conn: Connection, s: Served)
    reads parser, conn, conn.clientBuffer, conn.clientBuffer.buffer, conn.serverBuffer, conn.serverBuffer.buffer
  {
    parser.View() == s.p && (!s.close ==> Stands(conn, s.k))
  }

  /** What a read has brought into a buffer that the loop asked to be read. */
  predicate Brought(b: Buffer, b': Buffer, chunk: seq<byte>) {
    && b.Valid() && b'.Valid() && b.ReadReady() && chunk != []
    && BytesToRead(b).Some? && |chunk| <= BytesToRead(b).value && b' == Append(b, chunk, BytesToRead(b).value)
  }

  /** Logs what has been read from the client. */
  method LogFromClient(parser: X11ProtocolParser, conn: Connection, ghost k: Link, chunk: seq<byte>) returns (ok: bool, ghost s: Served)
    requires Sound(k) && Brought(k.client.b, conn.clientBuffer.View(), chunk)
    requires conn.View() == Refreshed(FromClient, k.c, conn.clientBuffer.View())
    requires conn.Apart() && conn.serverBuffer.View() == k.server.b
    modifies parser`stash, conn`sequence, conn`opcodes, conn`byteswap
    modifies conn.clientBuffer`bytesParsed, conn.clientBuffer`nextMessageSz
    ensures var r := ReadEnd(FromClient, old(parser.View()), conn.id, k, chunk);
      ok == r.Some? && (ok ==> r == Some(s) && Serves(parser, conn, s) && !s.close)
  {
    ReceiveIsPass(FromClient, parser.View(), k.c, k.client, chunk);
    ghost var p := parser.View();
    ghost var r := ReadEnd(FromClient, p, conn.id, k, chunk);
    var parsed;
    ok, parsed := parser.LogClientMessages(conn);
    s := if ok then r.value else Served(p, k, [], true);
  }

  /** Logs what has been read from the server, editing it in the buffer. */
  method LogFromServer(parser: X11ProtocolParser, conn: Connection, ghost k: Link, chunk: seq<byte>) returns (ok: bool, ghost s: Served)
    requires Sound(k) && Brought(k.server.b, conn.serverBuffer.View(), chunk)
    requires conn.View() == k.c
    requires conn.Apart() && conn.clientBuffer.View() == k.client.b
    modifies parser`stash, parser`atoms, parser`majors, conn`opcodes, conn`extensions, conn`status
    modifies conn.serverBuffer`bytesParsed, conn.serverBuffer`nextMessageSz, conn.serverBuffer.buffer
    ensures var r := ReadEnd(FromServer, old(parser.View()), conn.id, k, chunk);
      ok == r.Some? && (ok ==> r == Some(s) && Serves(parser, conn, s) && !s.close)
  {
    ReceiveIsPass(FromServer, parser.View(), k.c, k.server, chunk);
    ghost var p := parser.View();
    ghost var r := ReadEnd(FromServer, p, conn.id, k, chunk);
    var parsed;
    ok, parsed := parser.LogServerMessages(conn);
    s := if ok then r.value else Served(p, k, [], true);
  }

  lemma GivenIsBrought(b: Buffer, b': Buffer, io: Io)
    requires b.Valid() && b.ReadReady() && Given(b, io).Some? && Given(b, io).value != []
    requires b' == Append(b, Given(b, io).value, BytesToRead(b).value)
    ensures Brought(b, b', Given(b, io).value)
  {
  }

  /** Reading from the client also changes what stashed views show. */
  method FillFromClient(conn: Connection, io: Io, ghost k: Link) returns (chunk: Option<seq<byte>>)
    requires Stands(conn, k) && Sound(k) && k.client.b.ReadReady()
    modifies conn.clientBuffer, conn.clientBuffer.buffer
    ensures conn.clientBuffer.buffer == old(conn.clientBuffer.buffer) || fresh(conn.clientBuffer.buffer)
    ensures chunk == Given(k.client.b, io)
    ensures conn.Apart() && conn.serverBuffer.View() == k.server.b
    ensures chunk.Some? && chunk.value != [] ==>
      Brought(k.client.b, conn.clientBuffer.View(), chunk.value) && conn.View() == Refreshed(FromClient, k.c, conn.clientBuffer.View())
  {
    chunk := Fill(conn.clientBuffer, io);
    if chunk.Some? && chunk.value != [] {
      GivenIsBrought(k.client.b, conn.clientBuffer.View(), io);
    }
  }

  /** Reads from the client and logs what has come; closes at the end of the stream. */
  method ReadFromClient(parser: X11ProtocolParser, conn: Connection, io: Io, ghost k: Link)
    returns (ok: bool, close: bool, ghost s: Served)
    requires Stands(conn, k) && Sound(k) && k.client.b.ReadReady()
    modifies parser`stash, conn`sequence, conn`opcodes, conn`byteswap, conn.clientBuffer, conn.clientBuffer.buffer
    ensures conn.clientBuffer.buffer == old(conn.clientBuffer.buffer) || fresh(conn.clientBuffer.buffer)
    ensures ok == ReadTurn(FromClient, old(parser.View()), conn.id, k, io).Some?
    ensures ok ==> ReadTurn(FromClient, old(parser.View()), conn.id, k, io) == Some(s) && Serves(parser, conn, s) && close == s.close
  {
    s := Served(parser.View(), k, [], true);
    ok, close := true, true;
    var chunk := FillFromClient(conn, io, k);
    if chunk.None? {
      ok := false;
    } else if chunk.value != [] {
      ok, s := LogFromClient(parser, conn, k, chunk.value);
      close := false;
    }
  }

  /** Reads from the server, logs what has come and edits it. */
  method ReadFromServer(parser: X11ProtocolParser, conn: Connection, io: Io, ghost k: Link)
    returns (ok: bool, close: bool, ghost s: Served)
    requires Stands(conn, k) && Sound(k) && k.server.b.ReadReady()
    modifies parser`stash, parser`atoms, parser`majors, conn`opcodes, conn`extensions, conn`status
    modifies conn.serverBuffer, conn.serverBuffer.buffer
    ensures conn.serverBuffer.buffer == old(conn.serverBuffer.buffer) || fresh(conn.serverBuffer.buffer)
    ensures ok == ReadTurn(FromServer, old(parser.View()), conn.id, k, io).Some?
    ensures ok ==> ReadTurn(FromServer, old(parser.View()), conn.id, k, io) == Some(s) && Serves(parser, conn, s) && close == s.close
  {
    s := Served(parser.View(), k, [], true);
    ok, close := true, true;
    var chunk := Fill(conn.serverBuffer, io);
    if chunk.None? {
      ok := false;
    } else if chunk.value != [] {
      GivenIsBrought(k.server.b, conn.serverBuffer.View(), io);
      ok, s := LogFromServer(parser, conn, k, chunk.value);
      close := false;
    }
  }

  /** Writes everything the server's buffer has parsed; a failing call closes the connection. */
  method ForwardToClient(parser: X11ProtocolParser, conn: Connection, takes: bool, ghost k: Link)
    returns (close: bool, sent: seq<byte>, ghost s: Served)
    requires Stands(conn, k) && Sound(k) && k.server.b.WriteReady()
    modifies conn.serverBuffer
    ensures conn.serverBuffer.buffer == old(conn.serverBuffer.buffer)
    ensures sent == if takes then old(conn.serverBuffer.View().Data()[..conn.serverBuffer.bytesParsed]) else []
    ensures takes ==>
      conn.serverBuffer.Valid() && conn.serverBuffer.View().Data() == old(conn.serverBuffer.View().Data()[conn.serverBuffer.bytesParsed..])
    ensures s == WriteEnd(FromClient, parser.View(), conn.id, k, takes) && Serves(parser, conn, s) && close == s.close
  {
    s := WriteEnd(FromClient, parser.View(), conn.id, k, takes);
    SentDequeues(conn.serverBuffer.View(), conn.serverBuffer.bytesParsed);
    sent := conn.serverBuffer.Write(conn.serverBuffer.bytesParsed, takes);
    close := !takes;
  }

  method ForwardToServer(parser: X11ProtocolParser, conn: Connection, takes: bool, ghost k: Link)
    returns (close: bool, sent: seq<byte>, ghost s: Served)
    requires Stands(conn, k) && Sound(k) && k.client.b.WriteReady()
    modifies conn.clientBuffer
    ensures conn.clientBuffer.buffer == old(conn.clientBuffer.buffer)
    ensures sent == if takes then old(conn.clientBuffer.View().Data()[..conn.clientBuffer.bytesParsed]) else []
    ensures takes ==>
      conn.clientBuffer.Valid() && conn.clientBuffer.View().Data() == old(conn.clientBuffer.View().Data()[conn.clientBuffer.bytesParsed..])
    ensures s == WriteEnd(FromServer, parser.View(), conn.id, k, takes) && Serves(parser, conn, s) && close == s.close
  {
    s := WriteEnd(FromServer, parser.View(), conn.id, k, takes);
    SentDequeues(conn.clientBuffer.View(), conn.clientBuffer.bytesParsed);
    sent := conn.clientBuffer.Write(conn.clientBuffer.bytesParsed, takes);
    close := !takes;
  }

  /** The buffers' arrays are the old ones or new ones. */
  twostate predicate ArraysKept(conn: Connection)
    reads conn.clientBuffer, conn.serverBuffer
  {
    && (conn.clientBuffer.buffer == old(conn.clientBuffer.buffer) || fresh(conn.clientBuffer.buffer))
    && (conn.serverBuffer.buffer == old(conn.serverBuffer.buffer) || fresh(conn.serverBuffer.buffer))
  }

  /** What a turn of one socket sends goes out of the other side's buffer. */
  predicate Sends(side: Side, k: Link, k': Link, sent: seq<byte>) {
    DirOf(k', Other(side)).sent == DirOf(k, Other(side)).sent + sent && DirOf(k', side).sent == DirOf(k, side).sent
  }

  lemma SentBy(p: Parser, id: nat, k: Link, side: Side, got: Flags, io: Io, s: Served, sent: seq<byte>)
    requires k.client.b.Valid() && k.server.b.Valid() && Answers(got, Asked(k, side))
    requires ServeEnd(side, p, id, k, got, io) == Some(s)
    requires sent == if EndTakes(k, side, got) && io.takes then Ready(DirOf(k, Other(side)).b) else []
    ensures Sends(side, k, s.k, sent)
  {
    ServeEndDone(p, id, k, side, got, io);
  }

  predicate SentOn(k: Link, k': Link, toClient: seq<byte>, toServer: seq<byte>) {
    k'.server.sent == k.server.sent + toClient && k'.client.sent == k.client.sent + toServer
  }

  lemma SentTogether(k: Link, first: Link, second: Link, toClient: seq<byte>, toServer: seq<byte>)
    requires Sends(FromClient, k, first, toClient)
    requires Sends(FromServer, first, second, toServer) || (second == first && toServer == [])
    ensures SentOn(k, second, toClient, toServer)
  {
  }

  /** What is done for the client's socket. */
  method ServeClientEnd(parser: X11ProtocolParser, conn: Connection, got: Flags, io: Io, ghost k: Link)
    returns (ok: bool, close: bool, sent: seq<byte>, ghost s: Served)
    requires Stands(conn, k) && Sound(k) && Answers(got, Asked(k, FromClient))
    modifies parser, conn, conn.clientBuffer, conn.serverBuffer, conn.clientBuffer.buffer, conn.serverBuffer.buffer
    ensures ArraysKept(conn)
    ensures ok ==> Sends(FromClient, k, s.k, sent)
    ensures ok == ServeEnd(FromClient, old(parser.View()), conn.id, k, got, io).Some?
    ensures ok ==>
      ServeEnd(FromClient, old(parser.View()), conn.id, k, got, io) == Some(s) && Serves(parser, conn, s) && close == s.close
  {
    ghost var p := parser.View();
    ok, sent := true, [];
    if got.read {
      ok, close, s := ReadFromClient(parser, conn, io, k);
    } else if got.write && conn.serverBuffer.bytesRead != 0 && conn.serverBuffer.bytesParsed > 0 {
      close, sent, s := ForwardToClient(parser, conn, io.takes, k);
    } else {
      close := got.error || got.pri;
      s := Served(parser.View(), k, [], close);
    }
    if ok {
      SentBy(p, conn.id, k, FromClient, got, io, s, sent);
    }
  }

  /** What is done for the server's socket. */
  method ServeServerEnd(parser: X11ProtocolParser, conn: Connection, got: Flags, io: Io, ghost k: Link)
    returns (ok: bool, close: bool, sent: seq<byte>, ghost s: Served)
    requires Stands(conn, k) && Sound(k) && Answers(got, Asked(k, FromServer))
    modifies parser, conn, conn.clientBuffer, conn.serverBuffer, conn.clientBuffer.buffer, conn.serverBuffer.buffer
    ensures ArraysKept(conn)
    ensures ok ==> Sends(FromServer, k, s.k, sent)
    ensures ok == ServeEnd(FromServer, old(parser.View()), conn.id, k, got, io).Some?
    ensures ok ==>
      ServeEnd(FromServer, old(parser.View()), conn.id, k, got, io) == Some(s) && Serves(parser, conn, s) && close == s.close
  {
    ghost var p := parser.View();
    ok, sent := true, [];
    if got.read {
      ok, close, s := ReadFromServer(parser, conn, io, k);
    } else if got.write && conn.clientBuffer.bytesRead != 0 && conn.clientBuffer.bytesParsed > 0 {
      close, sent, s := ForwardToServer(parser, conn, io.takes, k);
    } else {
      close := got.error || got.pri;
      s := Served(parser.View(), k, [], close);
    }
    if ok {
      SentBy(p, conn.id, k, FromServer, got, io, s, sent);
    }
  }

  /** What the two sockets' turns come to. */
  function Both(first: Served, second: Option<Served>): Option<Served> {
    if second.None? then None else Some(second.value.(actions := first.actions + second.value.actions))
  }

  lemma ServeIsBoth(p: Parser, id: nat, k: Link, client: Flags, server: Flags, clientIo: Io, serverIo: Io)
    ensures var first := ServeEnd(FromClient, p, id, k, client, clientIo);
      Serve(p, id, k, client, server, clientIo, serverIo)
      == if first.None? || first.value.close then first
         else Both(first.value, ServeEnd(FromServer, first.value.p, id, first.value.k, server, serverIo))
  {
  }

  /** The server's socket, after a client's that has left the connection open. */
  method ServeServerNext(
    parser: X11ProtocolParser, conn: Connection, got: Flags, io: Io, toClient: seq<byte>, ghost k: Link, ghost first: Served)
    returns (ok: bool, close: bool, toServer: seq<byte>, ghost s: Served)
    requires Serves(parser, conn, first) && !first.close && Sends(FromClient, k, first.k, toClient)
    requires Sound(first.k) && Answers(got, Asked(first.k, FromServer))
    modifies parser, conn, conn.clientBuffer, conn.serverBuffer, conn.clientBuffer.buffer, conn.serverBuffer.buffer
    ensures ArraysKept(conn)
    ensures ok ==> SentOn(k, s.k, toClient, toServer)
    ensures var r := Both(first, ServeEnd(FromServer, first.p, conn.id, first.k, got, io));
      ok == r.Some? && (ok ==> r == Some(s) && Serves(parser, conn, s) && close == s.close)
  {
    ok, close, toServer, s := ServeServerEnd(parser, conn, got, io, first.k);
    if ok {
      SentTogether(k, first.k, s.k, toClient, toServer);
    }
    s := s.(actions := first.actions + s.actions);
  }

  /** A connection's turn: its client's socket first, and its server's unless that closes it. What the objects
      do is what the link does, and the bytes that the two sockets are sent are those that leave its buffers. */
  method ServeConnection(
    parser: X11ProtocolParser, conn: Connection, client: Flags, server: Flags, clientIo: Io, serverIo: Io, ghost k: Link)
    returns (ok: bool, close: bool, toClient: seq<byte>, toServer: seq<byte>, ghost s: Served)
    requires Stands(conn, k) && LinkHolds(parser.host, conn.id, k)
    requires Answers(client, Asked(k, FromClient)) && Answers(server, Asked(k, FromServer))
    modifies parser, conn, conn.clientBuffer, conn.serverBuffer, conn.clientBuffer.buffer, conn.serverBuffer.buffer
    ensures ArraysKept(conn)
    ensures ok ==> SentOn(k, s.k, toClient, toServer)
    ensures var r := Serve(old(parser.View()), conn.id, k, client, server, clientIo, serverIo);
      ok == r.Some? && (ok ==> r == Some(s) && Serves(parser, conn, s) && close == s.close)
  {
    ghost var p, first := parser.View(), Served(parser.View(), k, [], true);
    ServeIsBoth(p, conn.id, k, client, server, clientIo, serverIo);
    ok, close, toClient, first := ServeClientEnd(parser, conn, client, clientIo, k);
    s, toServer := first, [];
    if ok && close {
      SentTogether(k, first.k, first.k, toClient, []);
    } else if ok {
      BetweenEnds(p, conn.id, k, client, server, clientIo);
      ok, close, toServer, s := ServeServerNext(parser, conn, server, serverIo, toClient, k, first);
    }
  }
}
