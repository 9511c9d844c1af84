/**
 The objects that a pass changes in place: a connection with its two buffers, and the parser that all
 connections share. Each method is the value function of the same name, applied to the objects' views.

 A method that returns `ok == false` has reached a point where the process ends.
 */
module ProtocolParser {
  import opened Bytes
  import opened SocketBuffers
  import opened Wire
  import opened Tracking
  import opened SetupCodec
  import opened MessageLoops
  import opened Passes

  /** `rules` are the client loop's. */
  ghost predicate ClientRules(rules: Rules) {
    && (forall p, c, b, cur {:trigger MeasureClient(p, c, b, cur)} :: rules.measure(p, c, b, cur) == MeasureClient(p, c, b, cur))
    && (forall p, c, m, at {:trigger HandleClient(p, c, m, at)} :: rules.handle(p, c, m, at) == HandleClient(p, c, m, at))
  }

  ghost predicate ServerRules(rules: Rules) {
    && (forall p, c, b, cur {:trigger MeasureServer(p, c, b, cur)} :: rules.measure(p, c, b, cur) == MeasureServer(p, c, b, cur))
    && (forall p, c, m, at {:trigger HandleServer(p, c, m, at)} :: rules.handle(p, c, m, at) == HandleServer(p, c, m, at))
  }

  lemma AdvanceIs(rules: Rules, p: Parser, c: Conn, b: Buffer, cur: nat, m: seq<byte>, l: Option<Logged>)
    requires b.Valid() && cur <= b.written + b.parsed && b.next.Some? && b.next.value <= b.Unparsed()
    requires m == b.store[cur..cur + b.next.value] && l == rules.handle(p, c, m, cur)
    ensures Advance(rules, p, c, b, cur)
      == if l.None? then None
         else Some(Passed(l.value.p, l.value.c, Marked(b.(store := Patched(b.store, cur, l.value.out))), [Entry(m, l.value.out, cur)]))
  {
  }

  class Connection {
    const id: nat
    const clientBuffer: SocketBuffer
    const serverBuffer: SocketBuffer
    var sequence: nat
    var opcodes: map<nat, byte>
    var extensions: map<Name, bool>
    var byteswap: bool
    var status: Status

    ghost function View(): Conn
      reads this, clientBuffer`buffer, clientBuffer.buffer
    {
      Conn(id, sequence, opcodes, extensions, byteswap, status, clientBuffer.buffer[..])
    }

    /** The two buffers share nothing. */
    ghost predicate Apart()
      reads clientBuffer`buffer, serverBuffer`buffer
    {
      clientBuffer != serverBuffer && clientBuffer.buffer != serverBuffer.buffer
    }

    constructor (serial: nat)
      ensures id == serial && View() == NewConn(serial, false, seq(BLOCK_SZ, _ => 0))
      ensures fresh(clientBuffer) && fresh(serverBuffer) && Apart()
      ensures fresh(clientBuffer.buffer) && fresh(serverBuffer.buffer)
      ensures clientBuffer.Valid() && serverBuffer.Valid()
    {
      id, sequence, opcodes, byteswap, status := serial, 0, map[], false, Unestablished;
      extensions := map[BIG_REQUESTS := false];
      clientBuffer := new SocketBuffer();
      serverBuffer := new SocketBuffer();
    }

    /** Numbers a request; an entry that is already there stays. */
    method RegisterRequest(major: byte) returns (seqNum: nat)
      modifies this`sequence, this`opcodes
      ensures View() == Register(old(View()), major) && seqNum == sequence
    {
      sequence := (sequence + 1) % SEQ_MOD;
      if sequence !in opcodes {
        opcodes := opcodes[sequence := major];
      }
      seqNum := sequence;
    }

    method LookupRequest(seqNum: nat) returns (major: Option<byte>)
      ensures major == if seqNum in opcodes then Some(opcodes[seqNum]) else None
    {
      major := if seqNum in opcodes then Some(opcodes[seqNum]) else None;
    }

    method UnregisterRequest(seqNum: nat)
      modifies this`opcodes
      ensures View() == Unregister(old(View()), Some(seqNum))
    {
      opcodes := opcodes - {seqNum};
    }

    method EnableBigRequestsExtension()
      modifies this`extensions
      ensures View() == EnableBigRequests(old(View()))
    {
      if BIG_REQUESTS in extensions {
        extensions := extensions[BIG_REQUESTS := true];
      }
    }
  }

  class X11ProtocolParser {
    const host: ByteOrder
    const allowed: set<Name>
    var stash: map<(nat, nat), Slice>
    var atoms: map<nat, Name>
    var majors: map<byte, Name>

    ghost function View(): Parser
      reads this
    {
      Parser(host, allowed, stash, atoms, majors)
    }

    /** Keeps where a string is in its client's buffer, not the string. */
    method StashString(connId: nat, seqNum: nat, str: Slice) returns (ok: bool)
      modifies this`stash
      ensures ok == ((connId, seqNum) !in old(stash))
      ensures stash == if ok then old(stash)[(connId, seqNum) := str] else old(stash)
    {
      ok := (connId, seqNum) !in stash;
      if ok {
        stash := stash[(connId, seqNum) := str];
      }
    }

    /** Gives back a stashed view once. */
    method UnstashString(connId: nat, seqNum: nat) returns (str: Option<Slice>)
      modifies this`stash
      ensures str == if (connId, seqNum) in old(stash) then Some(old(stash)[(connId, seqNum)]) else None
      ensures stash == old(stash) - {(connId, seqNum)}
    {
      str := if (connId, seqNum) in stash then Some(stash[(connId, seqNum)]) else None;
      stash := stash - {(connId, seqNum)};
    }

    /** Starts parsing an extension for all connections, unless its opcode is taken. */
    method EnableExtensionParsing(name: Name, major: byte) returns (ok: bool)
      modifies this`majors
      ensures ok == (name in allowed && name in KNOWN_EXTENSIONS)
      ensures majors == if ok && !IsCore(major) && major !in old(majors) then old(majors)[major := name] else old(majors)
    {
      ok := name in allowed && name in KNOWN_EXTENSIONS;
      if ok && !IsCore(major) && major !in majors {
        majors := majors[major := name];
      }
    }

    /** What is at a view now; `None` when the buffer has moved. */
    method ReadView(conn: Connection, v: Slice) returns (name: Option<Name>)
      ensures name == Spelled(conn.View().mem, v)
    {
      var data := conn.clientBuffer.buffer;
      if data.Length != v.room || v.at + v.sz > data.Length {
        return None;
      }
      return Some(data[v.at..v.at + v.sz]);
    }

    /** Whether the printer of a request without its own length takes it for a whole one. */
    method LogCroppedRequest(conn: Connection, m: seq<byte>, at: nat) returns (ok: bool)
      requires |m| >= 4
      ensures ok == PrintsCropped(View(), conn.View(), m, at)
    {
      var o, data := OrderOf(host, conn.byteswap), conn.clientBuffer.buffer;
      if |m| != 4 || U16(o, m, 2) != 0 {
        return false;
      }
      if IsCore(m[0]) {
        ok := m[0] == QUERY_TEXT_EXTENTS || m[0] == PUT_IMAGE || m[0] == NO_OPERATION;
      } else {
        ok := m[0] !in majors || m[1] != 0;
      }
      if !ok || at + PrinterReads(m) > data.Length {
        return false;
      }
      ok := U32(o, data[..], at + 4) == 1;
    }

    method LogRequest(conn: Connection, m: seq<byte>, at: nat) returns (ok: bool)
      modifies this`stash, conn`sequence, conn`opcodes
      ensures var t := Tracking.LogRequest(old(View()), old(conn.View()), m, at);
        ok == t.Some? && (ok ==> View() == t.value.p && conn.View() == t.value.c)
    {
      var o := OrderOf(host, conn.byteswap);
      if |m| < 4 {
        return false;
      }
      var sequence := conn.RegisterRequest(m[0]);
      if U16(o, m, 2) == 0 && !(BIG_REQUESTS in conn.extensions && conn.extensions[BIG_REQUESTS]) {
        return false;
      }
      if SizeOf(FromClient, o, m) != Some(|m|) {
        ok := LogCroppedRequest(conn, m, at);
        return;
      }
      if Stashes(m[0]) {
        if NamePlace(o, m).None? {
          return false;
        }
        ok := StashString(conn.id, sequence, NameSlice(o, m, at, conn.clientBuffer.buffer.Length));
      } else {
        ok := true;
      }
    }

    /** What a reply does to itself, in place: nothing, or the `present` flag cleared. */
    method LogQueryExtension(conn: Connection, data: array<byte>, at: nat, sz: nat) returns (ok: bool)
      requires at + sz <= data.Length && sz >= RESPONSE_SZ && data != conn.clientBuffer.buffer
      modifies this`stash, this`majors, data
      ensures var m := old(data[at..at + sz]);
        var l := LogQueryExtensionReply(old(View()), conn.View(), OrderOf(host, conn.byteswap), m);
        && ok == l.Some?
        && (ok ==> View() == l.value.p && data[..] == Patched(old(data[..]), at, l.value.out))
    {
      ghost var m := data[at..at + sz];
      var o := OrderOf(host, conn.byteswap);
      var str := UnstashString(conn.id, U16(o, data[at..at + sz], 2));
      if str.None? {
        return false;
      }
      var name := ReadView(conn, str.value);
      if name.None? {
        return false;
      }
      if name.value !in allowed {
        data[at + 8] := 0;
      }
      assert data[..] == Patched(old(data[..]), at, if name.value in allowed then m else m[8 := 0]);
      if data[at + 8] == 0 {
        return true;
      }
      ok := EnableExtensionParsing(name.value, data[at + 9]);
    }

    method LogInternAtom(conn: Connection, m: seq<byte>) returns (ok: bool)
      requires |m| >= RESPONSE_SZ
      modifies this`stash, this`atoms
      ensures var l := LogInternAtomReply(old(View()), conn.View(), OrderOf(host, conn.byteswap), m);
        ok == l.Some? && (ok ==> View() == l.value.p && l.value.out == m)
    {
      var o := OrderOf(host, conn.byteswap);
      var atom := U32(o, m, 8);
      if atom == 0 {
        return true;
      }
      var str := UnstashString(conn.id, U16(o, m, 2));
      if str.None? {
        return false;
      }
      var name := ReadView(conn, str.value);
      if name.None? {
        return false;
      }
      atoms := atoms[atom := name.value];
      return true;
    }

    /** A reply to a request without a string. The one parsed extension's reply switches it on. */
    method ParseOtherReply(conn: Connection, m: seq<byte>, major: byte) returns (ok: bool)
      requires |m| >= RESPONSE_SZ && major != INTERN_ATOM && major != QUERY_EXTENSION
      modifies conn`extensions
      ensures var l := ParseReply(View(), old(conn.View()), OrderOf(host, conn.byteswap), m, major);
        ok == l.Some? && (ok ==> l == Some(Logged(View(), conn.View(), m)))
    {
      if IsCore(major) {
        return major in REPLYING;
      }
      if major !in majors {
        return true;
      }
      ok := |m| == RESPONSE_SZ && !(BIG_REQUESTS in conn.extensions && conn.extensions[BIG_REQUESTS]);
      if ok {
        conn.EnableBigRequestsExtension();
      }
    }

    method ParseReplyOf(conn: Connection, data: array<byte>, at: nat, sz: nat, major: byte) returns (ok: bool)
      requires at + sz <= data.Length && sz >= RESPONSE_SZ && data != conn.clientBuffer.buffer
      modifies this`stash, this`atoms, this`majors, conn`extensions, data
      ensures var m := old(data[at..at + sz]);
        var l := ParseReply(old(View()), old(conn.View()), OrderOf(host, conn.byteswap), m, major);
        && ok == l.Some?
        && (ok ==> View() == l.value.p && conn.View() == l.value.c && data[..] == Patched(old(data[..]), at, l.value.out))
    {
      var m := data[at..at + sz];
      assert Patched(data[..], at, m) == data[..];
      if major == INTERN_ATOM {
        if sz != RESPONSE_SZ {
          return false;
        }
        ok := LogInternAtom(conn, m);
      } else if major == QUERY_EXTENSION {
        if sz != RESPONSE_SZ {
          return false;
        }
        ok := LogQueryExtension(conn, data, at, sz);
      } else {
        ok := ParseOtherReply(conn, m, major);
      }
    }

    method LogReply(conn: Connection, data: array<byte>, at: nat, sz: nat) returns (ok: bool)
      requires at + sz <= data.Length && sz >= RESPONSE_SZ && data[at] == REPLY_PREFIX && data != conn.clientBuffer.buffer
      modifies this`stash, this`atoms, this`majors, conn`opcodes, conn`extensions, data
      ensures var m := old(data[at..at + sz]);
        var l := Tracking.LogReply(old(View()), old(conn.View()), m);
        && ok == l.Some?
        && (ok ==> View() == l.value.p && conn.View() == l.value.c && data[..] == Patched(old(data[..]), at, l.value.out))
    {
      var m := data[at..at + sz];
      var o := OrderOf(host, conn.byteswap);
      var sequence := U16(o, m, 2);
      var major := conn.LookupRequest(sequence);
      if major.None? || SizeOf(FromServer, o, m) != Some(sz) {
        return false;
      }
      ok := ParseReplyOf(conn, data, at, sz, major.value);
      if major.value != LIST_FONTS_WITH_INFO || m[1] == 0 {
        conn.UnregisterRequest(sequence);
      }
    }

    method LogResponse(conn: Connection, data: array<byte>, at: nat, sz: nat) returns (ok: bool)
      requires at + sz <= data.Length && data != conn.clientBuffer.buffer
      modifies this`stash, this`atoms, this`majors, conn`opcodes, conn`extensions, data
      ensures var m := old(data[at..at + sz]);
        var l := Tracking.LogResponse(old(View()), old(conn.View()), m);
        && ok == l.Some?
        && (ok ==> View() == l.value.p && conn.View() == l.value.c && data[..] == Patched(old(data[..]), at, l.value.out))
    {
      if sz < RESPONSE_SZ {
        return false;
      }
      var m := data[at..at + sz];
      assert Patched(data[..], at, m) == data[..];
      if data[at] == REPLY_PREFIX {
        ok := LogReply(conn, data, at, sz);
      } else {
        ok := sz == RESPONSE_SZ;
        if data[at] == 0 {
          conn.UnregisterRequest(U16(OrderOf(host, conn.byteswap), m, 2));
        }
      }
    }

    // ---- the client's loop ----

    method MeasureClientMessage(conn: Connection, cur: nat) returns (ok: bool)
      requires conn.clientBuffer.Valid() && conn.clientBuffer.nextMessageSz.None?
      modifies conn`byteswap, conn.clientBuffer`nextMessageSz
      ensures var size := MeasureClient(View(), old(conn.View()), old(conn.clientBuffer.View()), cur);
        && ok == size.Some?
        && (ok ==> conn.View() == size.value.c)
        && (ok ==> conn.clientBuffer.View() == old(conn.clientBuffer.View()).(next := size.value.next))
    {
      var buffer := conn.clientBuffer;
      var data, size := buffer.buffer[..], buffer.bytesRead - buffer.bytesWritten;
      if conn.status.Unestablished? {
        if size < INITIATION_HEADER_SZ {
          return true;
        }
        if cur + INITIATION_HEADER_SZ > |data| || !NamesOrder(data[cur]) {
          return false;
        }
        conn.byteswap := SwapFor(host, data[cur]);
        buffer.SetMessageSize(INITIATION_HEADER_SZ + Pad(Ordered16(host, conn.byteswap, data, cur + 6))
                              + Pad(Ordered16(host, conn.byteswap, data, cur + 8)));
        return true;
      }
      if size < 4 {
        return true;
      }
      if cur + 4 > |data| {
        return false;
      }
      if U16(host, data, cur + 2) != 0 {
        buffer.SetMessageSize(ALIGN * Ordered16(host, conn.byteswap, data, cur + 2));
        return true;
      }
      if size < 8 {
        return true;
      }
      if cur + 8 > |data| {
        return false;
      }
      buffer.SetMessageSize(ALIGN * Ordered32(host, conn.byteswap, data, cur + 4));
      return true;
    }

    method LogClientMessage(conn: Connection, m: seq<byte>, at: nat) returns (ok: bool)
      modifies this`stash, conn`sequence, conn`opcodes
      ensures var l := HandleClient(old(View()), old(conn.View()), m, at);
        ok == l.Some? && (ok ==> View() == l.value.p && conn.View() == l.value.c && l.value.out == m)
    {
      if conn.status.Open? {
        ok := LogRequest(conn, m, at);
      } else {
        ok := |m| >= INITIATION_HEADER_SZ && NamesOrder(m[0]) && conn.byteswap == SwapFor(host, m[0])
          && INITIATION_HEADER_SZ + Pad(Ordered16(host, conn.byteswap, m, 6)) + Pad(Ordered16(host, conn.byteswap, m, 8)) == |m|;
      }
    }

    /** Logs the whole message at `data`, and marks it parsed. */
    method LogWholeClientMessage(conn: Connection, data: nat, ghost rules: Rules) returns (ok: bool, m: seq<byte>)
      requires ClientRules(rules) && conn.clientBuffer.Valid() && conn.clientBuffer.nextMessageSz.Some?
      requires data <= conn.clientBuffer.bytesWritten + conn.clientBuffer.bytesParsed
      requires conn.clientBuffer.nextMessageSz.value <= conn.clientBuffer.View().Unparsed()
      modifies this`stash, conn`sequence, conn`opcodes
      modifies conn.clientBuffer`bytesParsed, conn.clientBuffer`nextMessageSz
      ensures var step := old(Advance(rules, View(), conn.View(), conn.clientBuffer.View(), data));
        ok == step.Some? && (ok ==> step == Some(Passed(View(), conn.View(), conn.clientBuffer.View(), [Entry(m, m, data)])))
    {
      var buffer := conn.clientBuffer;
      m := buffer.buffer[data..data + buffer.nextMessageSz.value];
      assert m == buffer.View().store[data..data + |m|] && Patched(buffer.View().store, data, m) == buffer.View().store;
      ok := LogClientMessage(conn, m, data);
      if ok {
        buffer.MarkMessageParsed();
      }
    }

    /** One turn of the client's loop: measures, and logs the message at `data` if it is whole. */
    method LogNextClientMessage(conn: Connection, data: nat, ghost rules: Rules) returns (ok: bool, logged: Option<seq<byte>>)
      requires ClientRules(rules) && conn.clientBuffer.Valid() && conn.clientBuffer.View().Unparsed() > 0
      requires data <= conn.clientBuffer.bytesWritten + conn.clientBuffer.bytesParsed
      modifies this`stash, conn`sequence, conn`opcodes, conn`byteswap
      modifies conn.clientBuffer`bytesParsed, conn.clientBuffer`nextMessageSz
      ensures var t := old(NextTurn(rules, View(), conn.View(), conn.clientBuffer.View(), data));
        ok == t.Some? && (ok ==> t == Some(Turn(View(), conn.View(), conn.clientBuffer.View(),
                                                if logged.None? then None else Some(Entry(logged.value, logged.value, data)))))
    {
      var buffer := conn.clientBuffer;
      if buffer.nextMessageSz.None? {
        ok := MeasureClientMessage(conn, data);
        if !ok {
          return false, None;
        }
      }
      var unparsed := buffer.bytesRead - buffer.bytesWritten - buffer.bytesParsed;
      if buffer.nextMessageSz.None? || unparsed < buffer.nextMessageSz.value {
        return true, None;
      }
      var m;
      ok, m := LogWholeClientMessage(conn, data, rules);
      logged := Some(m);
    }

    method ClientTurn(conn: Connection, data: nat, ghost rules: Rules, ghost loop: Loop, ghost log: seq<Entry>)
      returns (ok: bool, logged: Option<seq<byte>>)
      requires ClientRules(rules) && LoopOf(rules, loop)
      requires conn.clientBuffer.Valid() && conn.clientBuffer.View().Unparsed() > 0
      requires data <= conn.clientBuffer.bytesWritten + conn.clientBuffer.bytesParsed
      modifies this`stash, conn`sequence, conn`opcodes, conn`byteswap
      modifies conn.clientBuffer`bytesParsed, conn.clientBuffer`nextMessageSz
      ensures var r := old(loop(log, View(), conn.View(), conn.clientBuffer.View(), data));
        if !ok then r.None?
        else if logged.None? then r == Some(Passed(View(), conn.View(), conn.clientBuffer.View(), log))
        else r == loop(log + [Entry(logged.value, logged.value, data)], View(), conn.View(),
                       conn.clientBuffer.View(), data + |logged.value|)
      ensures ok ==> conn.clientBuffer.bytesParsed == old(conn.clientBuffer.bytesParsed) + if logged.None? then 0 else |logged.value|
      ensures ok && logged.Some? ==> |logged.value| > 0 && conn.clientBuffer.Valid()
    {
      LoopTurns(rules, loop, log, View(), conn.View(), conn.clientBuffer.View(), data);
      ok, logged := LogNextClientMessage(conn, data, rules);
    }

    method ClientLoop(conn: Connection, ghost rules: Rules, ghost loop: Loop) returns (ok: bool, bytesParsed: nat)
      requires ClientRules(rules) && LoopOf(rules, loop) && conn.clientBuffer.Valid()
      modifies this`stash, conn`sequence, conn`opcodes, conn`byteswap
      modifies conn.clientBuffer`bytesParsed, conn.clientBuffer`nextMessageSz
      ensures var r := old(loop([], View(), conn.View(), conn.clientBuffer.View(), conn.clientBuffer.bytesWritten));
        && ok == r.Some?
        && (ok ==> View() == r.value.p && conn.View() == r.value.c && conn.clientBuffer.View() == r.value.b)
      ensures ok ==> conn.clientBuffer.bytesParsed == old(conn.clientBuffer.bytesParsed) + bytesParsed
    {
      var buffer := conn.clientBuffer;
      var data := buffer.bytesWritten;
      bytesParsed := 0;
      ghost var log: seq<Entry> := [];
      ghost var whole := loop(log, View(), conn.View(), buffer.View(), data);
      while buffer.bytesParsed < buffer.bytesRead - buffer.bytesWritten
        invariant buffer.Valid() && data == old(buffer.bytesWritten) + bytesParsed
        invariant buffer.bytesParsed == old(buffer.bytesParsed) + bytesParsed
        invariant whole == loop(log, View(), conn.View(), buffer.View(), data)
        decreases buffer.bytesRead - buffer.bytesWritten - buffer.bytesParsed
      {
        var more, logged := ClientTurn(conn, data, rules, loop, log);
        if !more {
          return false, bytesParsed;
        }
        if logged.None? {
          return true, bytesParsed;
        }
        log := log + [Entry(logged.value, logged.value, data)];
        data, bytesParsed := data + |logged.value|, bytesParsed + |logged.value|;
      }
      LoopEnds(rules, loop, log, View(), conn.View(), buffer.View(), data);
      return true, bytesParsed;
    }

    /** Cuts what the client's buffer holds into messages and logs them, as long as there are whole ones. */
    method LogClientMessages(conn: Connection) returns (ok: bool, bytesParsed: nat)
      requires conn.clientBuffer.Valid() && Live(conn.View())
      modifies this`stash, conn`sequence, conn`opcodes, conn`byteswap
      modifies conn.clientBuffer`bytesParsed, conn.clientBuffer`nextMessageSz
      ensures var r := old(Pass(CLIENT_RULES, View(), conn.View(), conn.clientBuffer.View(), conn.clientBuffer.bytesWritten));
        && ok == r.Some?
        && (ok ==> View() == r.value.p && conn.View() == r.value.c && conn.clientBuffer.View() == r.value.b)
      ensures ok ==> conn.clientBuffer.bytesParsed == old(conn.clientBuffer.bytesParsed) + bytesParsed
    {
      ghost var loop: Loop := (log, p, c, b, cur: nat) => GoingOn(CLIENT_RULES, log, p, c, b, cur);
      LoopStarts(CLIENT_RULES, loop, View(), conn.View(), conn.clientBuffer.View(), conn.clientBuffer.bytesWritten);
      ok, bytesParsed := ClientLoop(conn, CLIENT_RULES, loop);
    }

    // ---- the server's loop ----

    method MeasureServerMessage(conn: Connection, cur: nat) returns (ok: bool)
      requires conn.serverBuffer.Valid() && conn.serverBuffer.nextMessageSz.None?
      modifies conn.serverBuffer`nextMessageSz
      ensures var size := MeasureServer(View(), conn.View(), old(conn.serverBuffer.View()), cur);
        && ok == size.Some?
        && (ok ==> size.value.c == conn.View())
        && (ok ==> conn.serverBuffer.View() == old(conn.serverBuffer.View()).(next := size.value.next))
    {
      var buffer := conn.serverBuffer;
      var data, size := buffer.buffer[..], buffer.bytesRead - buffer.bytesWritten;
      if conn.status.Unestablished? {
        if size < RESPONSE_HEADER_SZ {
          return true;
        }
        if cur + RESPONSE_HEADER_SZ > |data| {
          return false;
        }
        buffer.SetMessageSize(RESPONSE_HEADER_SZ + ALIGN * Ordered16(host, conn.byteswap, data, cur + 6));
        return true;
      }
      if size < 4 {
        return true;
      }
      if cur >= |data| {
        return false;
      }
      if data[cur] != REPLY_PREFIX {
        buffer.SetMessageSize(RESPONSE_SZ);
        return true;
      }
      if cur + 8 > |data| {
        return false;
      }
      buffer.SetMessageSize(RESPONSE_SZ + ALIGN * Ordered32(host, conn.byteswap, data, cur + 4));
      return true;
    }

    /** Logs the message of `sz` bytes at `at`; editing it is editing the buffer. */
    method LogServerMessage(conn: Connection, data: array<byte>, at: nat, sz: nat) returns (ok: bool)
      requires at + sz <= data.Length && data != conn.clientBuffer.buffer
      modifies this`stash, this`atoms, this`majors, conn`opcodes, conn`extensions, conn`status, data
      ensures var l := HandleServer(old(View()), old(conn.View()), old(data[at..at + sz]), at);
        && ok == l.Some?
        && (ok ==> View() == l.value.p && conn.View() == l.value.c && data[..] == Patched(old(data[..]), at, l.value.out))
    {
      var m := data[at..at + sz];
      assert Patched(data[..], at, m) == data[..];
      if conn.status.Open? {
        ok := LogResponse(conn, data, at, sz);
      } else if sz == 0 {
        ok := false;
      } else {
        ok := LogInitResponse(OrderOf(host, conn.byteswap), m);
        if ok {
          conn.status := Open;
        }
      }
    }

    /** Logs the whole message at `data`, and marks it parsed. */
    method LogWholeServerMessage(conn: Connection, data: nat, ghost rules: Rules) returns (ok: bool, ghost e: Entry)
      requires ServerRules(rules) && conn.Apart() && conn.serverBuffer.Valid() && conn.serverBuffer.nextMessageSz.Some?
      requires data <= conn.serverBuffer.bytesWritten + conn.serverBuffer.bytesParsed
      requires conn.serverBuffer.nextMessageSz.value <= conn.serverBuffer.View().Unparsed()
      modifies this`stash, this`atoms, this`majors, conn`opcodes, conn`extensions, conn`status
      modifies conn.serverBuffer`bytesParsed, conn.serverBuffer`nextMessageSz, conn.serverBuffer.buffer
      ensures |e.msg| == old(conn.serverBuffer.nextMessageSz).value
      ensures var step := old(Advance(rules, View(), conn.View(), conn.serverBuffer.View(), data));
        ok == step.Some? && (ok ==> step == Some(Passed(View(), conn.View(), conn.serverBuffer.View(), [e])))
    {
      var buffer := conn.serverBuffer;
      var sz := buffer.nextMessageSz.value;
      ghost var m := buffer.buffer[data..data + sz];
      ghost var l := HandleServer(View(), conn.View(), m, data);
      AdvanceIs(rules, View(), conn.View(), buffer.View(), data, m, l);
      ok := LogServerMessage(conn, buffer.buffer, data, sz);
      e := Entry(m, if ok then l.value.out else [], data);
      if ok {
        buffer.MarkMessageParsed();
      }
    }

    /** One turn of the server's loop: measures, and logs the message at `data` if it is whole. */
    method LogNextServerMessage(conn: Connection, data: nat, ghost rules: Rules)
      returns (ok: bool, logged: Option<nat>, ghost e: Entry)
      requires ServerRules(rules) && conn.Apart() && conn.serverBuffer.Valid() && conn.serverBuffer.View().Unparsed() > 0
      requires data <= conn.serverBuffer.bytesWritten + conn.serverBuffer.bytesParsed
      modifies this`stash, this`atoms, this`majors, conn`opcodes, conn`extensions, conn`status
      modifies conn.serverBuffer`bytesParsed, conn.serverBuffer`nextMessageSz, conn.serverBuffer.buffer
      ensures logged.Some? ==> |e.msg| == logged.value
      ensures var t := old(NextTurn(rules, View(), conn.View(), conn.serverBuffer.View(), data));
        ok == t.Some? && (ok ==> t == Some(Turn(View(), conn.View(), conn.serverBuffer.View(),
                                                if logged.None? then None else Some(e))))
    {
      var buffer := conn.serverBuffer;
      e := Entry([], [], 0);
      if buffer.nextMessageSz.None? {
        ok := MeasureServerMessage(conn, data);
        if !ok {
          return false, None, e;
        }
      }
      var unparsed := buffer.bytesRead - buffer.bytesWritten - buffer.bytesParsed;
      if buffer.nextMessageSz.None? || unparsed < buffer.nextMessageSz.value {
        return true, None, e;
      }
      logged := buffer.nextMessageSz;
      ok, e := LogWholeServerMessage(conn, data, rules);
    }

    method ServerTurn(conn: Connection, data: nat, ghost rules: Rules, ghost loop: Loop, ghost log: seq<Entry>)
      returns (ok: bool, logged: Option<nat>, ghost e: Entry)
      requires ServerRules(rules) && LoopOf(rules, loop) && conn.Apart()
      requires conn.serverBuffer.Valid() && conn.serverBuffer.View().Unparsed() > 0
      requires data <= conn.serverBuffer.bytesWritten + conn.serverBuffer.bytesParsed
      modifies this`stash, this`atoms, this`majors, conn`opcodes, conn`extensions, conn`status
      modifies conn.serverBuffer`bytesParsed, conn.serverBuffer`nextMessageSz, conn.serverBuffer.buffer
      ensures var r := old(loop(log, View(), conn.View(), conn.serverBuffer.View(), data));
        if !ok then r.None?
        else if logged.None? then r == Some(Passed(View(), conn.View(), conn.serverBuffer.View(), log))
        else r == loop(log + [e], View(), conn.View(), conn.serverBuffer.View(), data + logged.value)
      ensures ok ==> conn.serverBuffer.bytesParsed == old(conn.serverBuffer.bytesParsed) + if logged.None? then 0 else logged.value
      ensures ok && logged.Some? ==> logged.value > 0 && conn.serverBuffer.Valid()
    {
      LoopTurns(rules, loop, log, View(), conn.View(), conn.serverBuffer.View(), data);
      ok, logged, e := LogNextServerMessage(conn, data, rules);
    }

    method ServerLoop(conn: Connection, ghost rules: Rules, ghost loop: Loop) returns (ok: bool, bytesParsed: nat)
      requires ServerRules(rules) && LoopOf(rules, loop) && conn.Apart() && conn.serverBuffer.Valid()
      modifies this`stash, this`atoms, this`majors, conn`opcodes, conn`extensions, conn`status
      modifies conn.serverBuffer`bytesParsed, conn.serverBuffer`nextMessageSz, conn.serverBuffer.buffer
      ensures var r := old(loop([], View(), conn.View(), conn.serverBuffer.View(), conn.serverBuffer.bytesWritten));
        && ok == r.Some?
        && (ok ==> View() == r.value.p && conn.View() == r.value.c && conn.serverBuffer.View() == r.value.b)
      ensures ok ==> conn.serverBuffer.bytesParsed == old(conn.serverBuffer.bytesParsed) + bytesParsed
    {
      var buffer := conn.serverBuffer;
      var data := buffer.bytesWritten;
      bytesParsed := 0;
      ghost var log: seq<Entry> := [];
      ghost var whole := loop(log, View(), conn.View(), buffer.View(), data);
      while buffer.bytesParsed < buffer.bytesRead - buffer.bytesWritten
        invariant buffer.Valid() && data == old(buffer.bytesWritten) + bytesParsed
        invariant buffer.bytesParsed == old(buffer.bytesParsed) + bytesParsed
        invariant whole == loop(log, View(), conn.View(), buffer.View(), data)
        decreases buffer.bytesRead - buffer.bytesWritten - buffer.bytesParsed
      {
        var more, logged;
        ghost var e;
        more, logged, e := ServerTurn(conn, data, rules, loop, log);
        if !more {
          return false, bytesParsed;
        }
        if logged.None? {
          return true, bytesParsed;
        }
        log := log + [e];
        data, bytesParsed := data + logged.value, bytesParsed + logged.value;
        assert whole == loop(log, View(), conn.View(), buffer.View(), data);
      }
      LoopEnds(rules, loop, log, View(), conn.View(), buffer.View(), data);
      return true, bytesParsed;
    }

    /** Cuts what the server's buffer holds into messages, logs them, and edits them in place. */
    method LogServerMessages(conn: Connection) returns (ok: bool, bytesParsed: nat)
      requires conn.Apart() && conn.serverBuffer.Valid() && Live(conn.View())
      modifies this`stash, this`atoms, this`majors, conn`opcodes, conn`extensions, conn`status
      modifies conn.serverBuffer`bytesParsed, conn.serverBuffer`nextMessageSz, conn.serverBuffer.buffer
      ensures var r := old(Pass(SERVER_RULES, View(), conn.View(), conn.serverBuffer.View(), conn.serverBuffer.bytesWritten));
        && ok == r.Some?
        && (ok ==> View() == r.value.p && conn.View() == r.value.c && conn.serverBuffer.View() == r.value.b)
      ensures ok ==> conn.serverBuffer.bytesParsed == old(conn.serverBuffer.bytesParsed) + bytesParsed
    {
      ghost var loop: Loop := (log, p, c, b, cur: nat) => GoingOn(SERVER_RULES, log, p, c, b, cur);
      LoopStarts(SERVER_RULES, loop, View(), conn.View(), conn.serverBuffer.View(), conn.serverBuffer.bytesWritten);
      ok, bytesParsed := ServerLoop(conn, SERVER_RULES, loop);
    }
  }
}
