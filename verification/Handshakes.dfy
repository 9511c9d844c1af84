/**
 The two messages that open a connection: what a client sends first, and what its server answers.
 */
module Handshakes {
  import opened Bytes
  import opened SocketBuffers
  import opened Wire
  import opened Tracking
  import opened SetupCodec
  import opened SetupPlaces
  import opened MessageLoops
  import opened Passes
  import opened Relay
  import opened Worlds

  /** A connection attempt as a client writes it, `B` or `l` first for its byte order: the version, and two counted
      strings, each padded with zeros. */
  function EncodeInitiation(o: ByteOrder, major: nat, minor: nat, name: seq<byte>, data: seq<byte>): seq<byte>
    requires major < 0x1_0000 && minor < 0x1_0000 && |name| < 0x1_0000 && |data| < 0x1_0000
  {
    [if o.LsbFirst? then 'l' as int else 'B' as int, 0] + Enc16(o, major) + Enc16(o, minor)
    + Enc16(o, |name|) + Enc16(o, |data|) + [0, 0] + (Padded(name) + Padded(data))
  }

  /** Nothing but `m` is in the buffer. */
  predicate HoldsOnly(b: Buffer, m: seq<byte>) {
    b.Valid() && b.written == b.parsed == 0 && b.next.None? && b.Pending() == m
  }

  lemma InitiationFields(o: ByteOrder, major: nat, minor: nat, name: seq<byte>, data: seq<byte>)
    requires major < 0x1_0000 && minor < 0x1_0000 && |name| < 0x1_0000 && |data| < 0x1_0000
    ensures var m := EncodeInitiation(o, major, minor, name, data);
      && |m| == 12 + |Padded(name)| + |Padded(data)|
      && m[0] == (if o.LsbFirst? then LSBFIRST else MSBFIRST)
      && U16(o, m, 6) == |name| && U16(o, m, 8) == |data|
  {
    var m := EncodeInitiation(o, major, minor, name, data);
    assert m[6..8] == Enc16(o, |name|) && m[8..10] == Enc16(o, |data|);
    assert U16(o, m, 6) == U16(o, m[6..8], 0) && U16(o, m, 8) == U16(o, m[8..10], 0);
  }

  /** The loop takes a message that is all there is, when it measures and logs it as one. */
  lemma LogsOne(rules: Rules, p: Parser, c: Conn, b: Buffer, m: seq<byte>, c': Conn, l: Logged)
    requires HoldsOnly(b, m) && |m| > 0
    requires rules.measure(p, c, b, 0) == Some(Measured(c', Some(|m|)))
    requires rules.handle(p, c', m, 0) == Some(l) && l.out == m
    ensures Pass(rules, p, c, b, 0) == Some(Passed(l.p, l.c, b.(parsed := |m|), [Entry(m, m, 0)]))
  {
    var e, after := Entry(m, m, 0), b.(parsed := |m|);
    assert b.store[0..|m|] == m && Patched(b.store, 0, m) == b.store;
    assert NextTurn(rules, p, c, b, 0) == Some(Turn(l.p, l.c, after, Some(e)));
    PassTurns(rules, p, c, b, 0);
    assert Pass(rules, l.p, l.c, after, |m|) == Some(Passed(l.p, l.c, after, []));
    assert [e] + [] == [e];
  }

  lemma InFront(b: Buffer, m: seq<byte>, i: nat)
    requires HoldsOnly(b, m) && i + 2 <= |m|
    ensures forall o :: U16(o, b.store, i) == U16(o, m, i)
    ensures b.store[0] == m[0]
  {
    assert forall j :: 0 <= j < |m| ==> b.store[j] == m[j];
  }

  lemma MeasuresInitiation(p: Parser, c: Conn, b: Buffer, o: ByteOrder, m: seq<byte>)
    requires c.status.Unestablished? && HoldsOnly(b, m) && |m| >= 12
    requires m[0] == (if o.LsbFirst? then LSBFIRST else MSBFIRST)
    requires |m| == 12 + Pad(U16(o, m, 6)) + Pad(U16(o, m, 8))
    ensures var c' := c.(byteswap := p.host != o);
      && MeasureClient(p, c, b, 0) == Some(Measured(c', Some(|m|)))
      && HandleClient(p, c', m, 0) == Some(Logged(p, c', m))
  {
    InFront(b, m, 6);
    InFront(b, m, 8);
    OrderedIsConnectionOrder(p.host, o, m, 6);
    OrderedIsConnectionOrder(p.host, o, m, 8);
  }

  /** Whatever name and data a connection attempt carries, in either byte order and on either host, the loop logs it
      as one message of exactly its bytes, with nothing left over, and takes over the byte order it names. */
  lemma InitiationIsLogged(p: Parser, c: Conn, b: Buffer, o: ByteOrder, major: nat, minor: nat, name: seq<byte>, data: seq<byte>)
    requires major < 0x1_0000 && minor < 0x1_0000 && |name| < 0x1_0000 && |data| < 0x1_0000
    requires c.status.Unestablished? && HoldsOnly(b, EncodeInitiation(o, major, minor, name, data))
    ensures var m := EncodeInitiation(o, major, minor, name, data); var c' := c.(byteswap := p.host != o);
      && Pass(CLIENT_RULES, p, c, b, 0) == Some(Passed(p, c', b.(parsed := |m|), [Entry(m, m, 0)]))
      && Order(p, c') == o && b.(parsed := |m|).Unparsed() == 0
  {
    var m := EncodeInitiation(o, major, minor, name, data);
    InitiationFields(o, major, minor, name, data);
    MeasuresInitiation(p, c, b, o, m);
    LogsOne(CLIENT_RULES, p, c, b, m, c.(byteswap := p.host != o), Logged(p, c.(byteswap := p.host != o), m));
  }

  lemma FirstRead(m: seq<byte>)
    requires 0 < |m| <= BLOCK_SZ
    ensures NewDir().b.Valid()
    ensures var b := Filled(NewDir().b, m); b.Some? && HoldsOnly(b.value, m)
  {
    var b := Append(NewDir().b, m, BLOCK_SZ);
    assert b.Pending() == m;
  }

  /** What a new connection holds once the attempt has come in one read. */
  lemma AttemptIsReceived(p: Parser, id: nat, o: ByteOrder, major: nat, minor: nat, name: seq<byte>, data: seq<byte>)
    requires major < 0x1_0000 && minor < 0x1_0000 && |name| < 0x1_0000 && |data| < 0x1_0000
    requires |EncodeInitiation(o, major, minor, name, data)| <= BLOCK_SZ
    ensures var m := EncodeInitiation(o, major, minor, name, data); var k := NewLink(id);
      && k.client.b.Valid() && Receive(FromClient, p, k.c, k.client, m).Some?
      && var r := Receive(FromClient, p, k.c, k.client, m).value;
        && r.p == p && Order(p, r.c) == o && r.c.status.Unestablished?
        && r.d.b.Valid() && r.d.b.parsed == r.d.b.read == |m| && r.d.b.Data() == m && r.d.received == m && r.d.sent == []
        && Msgs(r.d.log) == [m]
  {
    var m, k := EncodeInitiation(o, major, minor, name, data), NewLink(id);
    FirstRead(m);
    var b := Filled(k.client.b, m).value;
    InitiationIsLogged(p, k.c.(mem := b.store), b, o, major, minor, name, data);
  }

  lemma OnlyAccept(w: World, id: nat)
    requires id !in w.used
    ensures ActAll(w, [Accept(id)]) == Some(w.(links := w.links[id := NewLink(id)], used := w.used + {id}))
  {
    assert [Accept(id)][..0] == [] && ActAll(w, []) == Some(w);
  }

  lemma AcceptThenRead(w: World, id: nat, m: seq<byte>) returns (w': World)
    requires id !in w.used && NewLink(id).client.b.Valid()
    requires Receive(FromClient, w.p, NewLink(id).c, NewLink(id).client, m).Some?
    ensures ActAll(w, [Accept(id), Read(id, FromClient, m)]) == Some(w')
    ensures id in w'.links && w'.links[id].client == Receive(FromClient, w.p, NewLink(id).c, NewLink(id).client, m).value.d
  {
    var both, w1 := [Accept(id), Read(id, FromClient, m)], w.(links := w.links[id := NewLink(id)], used := w.used + {id});
    assert both[..1] == [Accept(id)];
    OnlyAccept(w, id);
    assert Act(w1, Read(id, FromClient, m)).Some?;
    w' := Act(w1, Read(id, FromClient, m)).value;
  }

  lemma WriteSends(w: World, before: seq<Action>, v: World, id: nat)
    requires ActAll(w, before) == Some(v) && id in v.links
    requires var d := v.links[id].client; d.b.Valid() && d.b.parsed == d.b.Size() > 0
    ensures var after := ActAll(w, before + [Write(id, FromClient)]);
      && after.Some? && id in after.value.links
      && after.value.links[id].client.sent == v.links[id].client.sent + v.links[id].client.b.Data()
  {
    assert (before + [Write(id, FromClient)])[..|before|] == before;
    assert v.links[id].client.b.Data()[..v.links[id].client.b.parsed] == v.links[id].client.b.Data();
  }

  /** ... and a write later the server has it, padding included. */
  lemma AttemptIsForwarded(w: World, id: nat, o: ByteOrder, major: nat, minor: nat, name: seq<byte>, data: seq<byte>)
    requires id !in w.used && major < 0x1_0000 && minor < 0x1_0000 && |name| < 0x1_0000 && |data| < 0x1_0000
    requires |EncodeInitiation(o, major, minor, name, data)| <= BLOCK_SZ
    ensures var m := EncodeInitiation(o, major, minor, name, data);
      var after := ActAll(w, [Accept(id), Read(id, FromClient, m), Write(id, FromClient)]);
      after.Some? && id in after.value.links && after.value.links[id].client.sent == m
  {
    var m := EncodeInitiation(o, major, minor, name, data);
    AttemptIsReceived(w.p, id, o, major, minor, name, data);
    var v := AcceptThenRead(w, id, m);
    WriteSends(w, [Accept(id), Read(id, FromClient, m)], v, id);
    assert [Accept(id), Read(id, FromClient, m)] + [Write(id, FromClient)] == [Accept(id), Read(id, FromClient, m), Write(id, FromClient)];
  }

  lemma MeasuresAnswer(p: Parser, c: Conn, b: Buffer, m: seq<byte>)
    requires c.status.Unestablished? && HoldsOnly(b, m) && |m| >= 8 && |m| == 8 + 4 * U16(Order(p, c), m, 6)
    ensures MeasureServer(p, c, b, 0) == Some(Measured(c, Some(|m|)))
  {
    InFront(b, m, 6);
    OrderedAt(p.host, c.byteswap, b.store, 6);
  }

  /** Whatever tree of screens and formats a server announces, in the byte order of its connection, the loop logs the
      answer as one message of exactly its bytes and opens the connection. */
  lemma AcceptanceIsLogged(p: Parser, c: Conn, b: Buffer, x: Shapes, a: Acceptance, unused: byte)
    requires OpensBy(x) && AcceptanceFits(x, a) && |EncodeBody(x, Order(p, c), a)| / 4 < 0x1_0000
    requires c.status.Unestablished?
    requires var body := EncodeBody(x, Order(p, c), a);
      HoldsOnly(b, EncodeInitResponse(Order(p, c), 1, unused, 11, 0, |body| / 4) + body)
    ensures Pass(SERVER_RULES, p, c, b, 0)
      == Some(Passed(p, c.(status := Open), b.(parsed := b.read), [Entry(b.Pending(), b.Pending(), 0)]))
  {
    var o, body, m := Order(p, c), EncodeBody(x, Order(p, c), a), b.Pending();
    var header := EncodeInitResponse(o, 1, unused, 11, 0, |body| / 4);
    BodyIsWhole(x, o, a);
    OpensExactly(x, o, a, 1, unused, 11, 0, |body| / 4);
    HeaderFields(o, 1, unused, 11, 0, |body| / 4);
    HeaderOf(o, header, body);
    MeasuresAnswer(p, c, b, m);
    LogsOne(SERVER_RULES, p, c, b, m, c, Logged(p, c.(status := Open), m));
  }
}
