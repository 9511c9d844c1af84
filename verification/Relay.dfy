/**
 One direction of a relayed connection: a buffer that the event loop fills from one socket and drains
 into the other, with everything that went in and out of it.
 */
module Relay {
  import opened Bytes
  import opened SocketBuffers
  import opened Wire
  import opened Tracking
  import opened MessageLoops
  import opened Passes
  import opened LoopRules

  /** A buffer and its history. The first `delivered` entries of the log have been sent; the entries from
      `setup` on were logged on an open connection. `echoed`: something has been logged by a read behind
      bytes that were parsed already. `cropped`: a message has been logged on the open connection that has not
      the length it announces. `lost`: the buffer waits for a message under a size that is not the message's own.
      `cuts`: the pieces in which the bytes of the open connection came, the first being what was there when it
      opened. */
  datatype Dir = Dir(b: Buffer, received: seq<byte>, sent: seq<byte>, log: seq<Entry>,
                     delivered: nat, setup: nat, echoed: bool, cropped: bool, lost: bool, cuts: seq<seq<byte>>)

  function NewStore(): seq<byte> { seq(BLOCK_SZ, _ => 0) }

  function NewDir(): Dir {
    Dir(Buffer(NewStore(), 0, 0, 0, None), [], [], [], 0, 0, false, false, false, [])
  }

  /** Parsed bytes and a partial message share the buffer. Such a buffer is polled for reading only, so
      the parsed bytes are not sent. */
  predicate Stuck(b: Buffer)
    requires b.Valid()
  {
    b.parsed > 0 && b.Unparsed() > 0
  }

  datatype Moved = Moved(p: Parser, c: Conn, d: Dir)

  /** The buffer once `chunk` has been read into it, when the event loop asks for a read and the socket
      may give that much. An empty read closes the connection instead. */
  function Filled(b: Buffer, chunk: seq<byte>): Option<Buffer>
    requires b.Valid()
  {
    var want := BytesToRead(b);
    if !b.ReadReady() || want.None? || chunk == [] || |chunk| > want.value then None
    else Some(Append(b, chunk, want.value))
  }

  /** The connection once the client's buffer has been filled: stashed names are views into it. */
  function Refreshed(side: Side, c: Conn, b: Buffer): Conn { if side.FromClient? then c.(mem := b.store) else c }

  /** Reading and logging. */
  function Receive(side: Side, p: Parser, c: Conn, d: Dir, chunk: seq<byte>): Option<Moved>
    requires d.b.Valid()
  {
    var filled := Filled(d.b, chunk);
    if filled.None? then None
    else
      var r := Pass(RulesOf(side), p, Refreshed(side, c, filled.value), filled.value, filled.value.written);
      if r.None? then None else Some(Moved(r.value.p, r.value.c, History(side, c, d, chunk, r.value)))
  }

  /** The history after a read. An answer that opens the connection is the first entry of its pass. */
  function History(side: Side, c: Conn, d: Dir, chunk: seq<byte>, r: Passed): Dir
    requires d.b.Valid()
  {
    var opens := !c.status.Open? && r.c.status.Open?;
    var received, log := d.received + chunk, d.log + r.log;
    var setup := if opens then |d.log| + 1 else d.setup;
    Dir(r.b, received, d.sent, log, d.delivered, setup,
        d.echoed || (Stuck(d.b) && r.log != []),
        d.cropped || (c.status.Open? && !AllWellFormed(side, Order(r.p, r.c), Msgs(r.log))),
        r.c.status.Open? && r.b.Valid() && !Stuck(r.b) && !Genuine(side, Order(r.p, r.c), r.b),
        if opens then [Behind(received, log, setup)] else if c.status.Open? then d.cuts + [chunk] else d.cuts)
  }

  /** The bytes received behind the first `setup` messages. */
  function Behind(received: seq<byte>, log: seq<Entry>, setup: nat): seq<byte> {
    if setup <= |log| && |Flatten(Msgs(log[..setup]))| <= |received| then received[|Flatten(Msgs(log[..setup]))|..] else []
  }

  /** Everything parsed is sent. */
  function Drained(d: Dir): Dir
    requires d.b.Valid()
  {
    d.(b := Sent(d.b, d.b.parsed), sent := d.sent + d.b.Data()[..d.b.parsed], delivered := |d.log|)
  }

  /** Sending, when the event loop asks for it. */
  function Flush(d: Dir): Option<Dir>
    requires d.b.Valid()
  {
    if d.b.ReadReady() || !d.b.WriteReady() then None else Some(Drained(d))
  }

  // ---- invariants ----

  /** Received bytes are logged messages and pending bytes; sent bytes are logged messages as edited. */
  predicate Ordered(d: Dir)
    requires d.b.Valid() && d.delivered <= |d.log|
  {
    && d.received == Flatten(Msgs(d.log)) + d.b.Pending()
    && d.sent + d.b.Data()[..d.b.parsed] == Flatten(Outs(d.log))
    && d.sent == Flatten(Outs(d.log[..d.delivered]))
  }

  predicate Unedited(log: seq<Entry>) { forall e <- log :: e.out == e.msg }

  /** As many bytes have been sent, or are ready to be, as have been logged. */
  predicate Counted(d: Dir)
    requires d.b.Valid() && d.delivered <= |d.log|
  {
    && |d.sent| + d.b.parsed == |Flatten(Msgs(d.log))|
    && |d.sent| == |Flatten(Msgs(d.log[..d.delivered]))|
  }

  predicate Conserves(side: Side, d: Dir) {
    && Settled(d.b, HeaderOf(side)) && d.delivered <= |d.log|
    && (side.FromClient? ==> d.received == d.sent + d.b.Data() && Unedited(d.log) && Counted(d))
    && (side.FromServer? ==> !d.echoed && (d.b.parsed > 0 ==> d.b.parsed >= RESPONSE_HEADER_SZ))
    && (!d.echoed ==> Ordered(d))
  }

  /** The bytes received before the connection opened, as the messages they were framed into. */
  function Handshake(d: Dir): seq<byte>
    requires d.setup <= |d.log|
  {
    Flatten(Msgs(d.log[..d.setup]))
  }

  /** The messages of the open connection, as the relay framed them. */
  function Messages(d: Dir): seq<seq<byte>>
    requires d.setup <= |d.log|
  {
    Msgs(d.log[d.setup..])
  }

  /** What arrived on the open connection, and in which pieces. */
  predicate InPieces(d: Dir) {
    && d.setup <= |d.log| && |Handshake(d)| <= |d.received|
    && d.cuts != [] && Flatten(d.cuts) == d.received[|Handshake(d)|..]
  }

  /** The messages of an open connection, and no whole message left behind unless one was cropped. */
  predicate Framed(side: Side, o: ByteOrder, d: Dir)
    requires d.b.Valid()
  {
    && InPieces(d)
    && AllFit(side, o, Msgs(d.log[d.setup..])) && (d.cropped <==> !AllWellFormed(side, o, Msgs(d.log[d.setup..])))
    && (!d.lost && !Stuck(d.b) ==> Genuine(side, o, d.b))
    && (!d.lost && !d.cropped && !Stuck(d.b) ==> Frames(side, o, d.b.Pending()).msgs == [])
  }

  // ---- what a read does to the buffer ----

  lemma FilledAppends(b: Buffer, header: nat, chunk: seq<byte>)
    requires Settled(b, header) && Filled(b, chunk).Some?
    ensures var b' := Filled(b, chunk).value;
      && b'.Valid() && b'.written == 0 && b'.parsed == b.parsed && b'.next == b.next
      && |b'.store| > 0 && b'.Unparsed() > 0
      && b'.Data() == b.Data() + chunk && b'.Pending() == b.Pending() + chunk
      && b'.Data()[..b.parsed] == b.Data()[..b.parsed]
  {
    AppendEnqueues(b, chunk, BytesToRead(b).value);
  }

  /** The event loop reads into a buffer that is empty, that waits for the rest of one message, or that is stuck. */
  lemma ReadsBehindNothing(b: Buffer, header: nat, chunk: seq<byte>)
    requires Settled(b, header) && Filled(b, chunk).Some? && !Stuck(b)
    ensures b.parsed == 0 && Aligned(Filled(b, chunk).value, 0)
    ensures b.next.Some? ==> |b.Pending() + chunk| <= b.next.value
  {
    FilledAppends(b, header, chunk);
  }

  lemma StuckWaits(b: Buffer, header: nat, chunk: seq<byte>)
    requires Settled(b, header) && Stuck(b) && b.next.Some? && Filled(b, chunk).Some?
    ensures Filled(b, chunk).value.Incomplete()
  {
    FilledAppends(b, header, chunk);
  }

  lemma AppendedLog(d: Dir, log: seq<Entry>)
    requires d.delivered <= |d.log|
    ensures Flatten(Msgs(d.log + log)) == Flatten(Msgs(d.log)) + Flatten(Msgs(log))
    ensures Flatten(Outs(d.log + log)) == Flatten(Outs(d.log)) + Flatten(Outs(log))
    ensures (d.log + log)[..d.delivered] == d.log[..d.delivered]
  {
    LogAppends(d.log, log);
  }

  /** A read behind nothing parsed keeps the order of bytes. */
  lemma OrderedAfterSplit(d: Dir, chunk: seq<byte>, b: Buffer, r: Passed, d': Dir)
    requires d.b.Valid() && d.delivered <= |d.log| && Ordered(d)
    requires b.Valid() && b.Pending() == d.b.Pending() + chunk && b.Data()[..b.parsed] == d.b.Data()[..d.b.parsed]
    requires Splits(b, r) && d'.b == r.b
    requires d'.received == d.received + chunk && d'.sent == d.sent && d'.log == d.log + r.log && d'.delivered == d.delivered
    ensures Ordered(d')
  {
    AppendedLog(d, r.log);
    assert d.received + chunk == Flatten(Msgs(d.log)) + (d.b.Pending() + chunk);
    assert d'.received == Flatten(Msgs(d.log)) + (Flatten(Msgs(r.log)) + r.b.Pending());
    assert d'.sent + d'.b.Data()[..d'.b.parsed] == d.sent + d.b.Data()[..d.b.parsed] + Flatten(Outs(r.log));
  }

  /** A read into a stuck buffer under a remembered size only adds pending bytes, for ever. */
  lemma StuckReceives(side: Side, p: Parser, c: Conn, d: Dir, chunk: seq<byte>)
    requires Settled(d.b, HeaderOf(side)) && Stuck(d.b) && d.b.next.Some? && Receive(side, p, c, d, chunk).Some?
    ensures var m := Receive(side, p, c, d, chunk).value;
      && m.p == p && m.c == c.(mem := m.c.mem)
      && m.d == d.(b := m.d.b, received := d.received + chunk, lost := false, cuts := m.d.cuts)
      && Settled(m.d.b, HeaderOf(side)) && Stuck(m.d.b) && m.d.b.next == d.b.next
      && m.d.b.Data() == d.b.Data() + chunk && m.d.b.Pending() == d.b.Pending() + chunk
      && m.d.b.parsed == d.b.parsed && m.d.b.Data()[..d.b.parsed] == d.b.Data()[..d.b.parsed]
  {
    FilledAppends(d.b, HeaderOf(side), chunk);
    StuckWaits(d.b, HeaderOf(side), chunk);
    PassWaits(RulesOf(side), p, Refreshed(side, c, Filled(d.b, chunk).value), Filled(d.b, chunk).value, 0);
    assert d.log + [] == d.log;
  }

  lemma ReceiveSettles(side: Side, p: Parser, c: Conn, d: Dir, chunk: seq<byte>)
    requires Settled(d.b, HeaderOf(side)) && Receive(side, p, c, d, chunk).Some?
    ensures Settled(Receive(side, p, c, d, chunk).value.d.b, HeaderOf(side))
  {
    FilledAppends(d.b, HeaderOf(side), chunk);
    BothAreDecisive(side);
    PassSettles(RulesOf(side), HeaderOf(side), p, Refreshed(side, c, Filled(d.b, chunk).value), Filled(d.b, chunk).value, 0);
  }

  /** The client's bytes are never edited, whatever was framed, and the logged messages are where the log
      says they are. */
  lemma ClientReceives(p: Parser, c: Conn, d: Dir, chunk: seq<byte>)
    requires Conserves(FromClient, d) && Receive(FromClient, p, c, d, chunk).Some?
    ensures var m := Receive(FromClient, p, c, d, chunk).value; var d' := m.d;
      && d'.b.Valid() && d'.received == d'.sent + d'.b.Data() && Unedited(d'.log)
      && d'.delivered <= |d'.log| && Counted(d')
      && m.c.mem == d'.b.store && |d.log| <= |d'.log|
      && forall e <- d'.log[|d.log|..] :: Contains(m.c.mem, e.at, e.msg)
  {
    var b := Filled(d.b, chunk).value;
    var c' := Refreshed(FromClient, c, b);
    var r := Pass(CLIENT_RULES, p, c', b, 0).value;
    FilledAppends(d.b, HeaderOf(FromClient), chunk);
    ClientIsPlain();
    PassLeavesBytes(CLIENT_RULES, p, c', b, 0);
    PassTakes(CLIENT_RULES, p, c', b, 0);
    PassKeeps(FromClient, p, c', b, 0);
    Regroup(d.sent, d.b.Data(), chunk);
    AppendedLog(d, r.log);
    assert (d.log + r.log)[|d.log|..] == r.log;
  }

  /** What a read does to the connection. */
  lemma ReceiveKeeps(side: Side, p: Parser, c: Conn, d: Dir, chunk: seq<byte>)
    requires Settled(d.b, HeaderOf(side)) && Receive(side, p, c, d, chunk).Some?
    ensures var m := Receive(side, p, c, d, chunk).value;
      && Kept(p, c.(mem := m.c.mem), m.p, m.c) && m.d.b.Valid()
      && m.c.mem == if side.FromClient? then m.d.b.store else c.mem
  {
    var b := Filled(d.b, chunk).value;
    FilledAppends(d.b, HeaderOf(side), chunk);
    ReceiveSettles(side, p, c, d, chunk);
    PassKeeps(side, p, Refreshed(side, c, b), b, 0);
    if side.FromClient? {
      ClientIsPlain();
      PassLeavesBytes(CLIENT_RULES, p, Refreshed(side, c, b), b, 0);
    }
  }

  lemma OrderedAfterRead(side: Side, p: Parser, c: Conn, d: Dir, chunk: seq<byte>)
    requires Settled(d.b, HeaderOf(side)) && d.delivered <= |d.log| && Ordered(d) && !Stuck(d.b)
    requires Receive(side, p, c, d, chunk).Some?
    ensures var d' := Receive(side, p, c, d, chunk).value.d; d'.b.Valid() && Ordered(d')
  {
    var b, d' := Filled(d.b, chunk).value, Receive(side, p, c, d, chunk).value.d;
    FilledAppends(d.b, HeaderOf(side), chunk);
    ReadsBehindNothing(d.b, HeaderOf(side), chunk);
    var r := Pass(RulesOf(side), p, Refreshed(side, c, b), b, 0).value;
    PassSplits(RulesOf(side), p, Refreshed(side, c, b), b, 0);
    OrderedAfterSplit(d, chunk, b, r, d');
  }

  lemma ServerParsesAHeader(p: Parser, c: Conn, d: Dir, chunk: seq<byte>)
    requires Settled(d.b, HeaderOf(FromServer)) && !Stuck(d.b) && Receive(FromServer, p, c, d, chunk).Some?
    ensures var d' := Receive(FromServer, p, c, d, chunk).value.d; d'.b.parsed > 0 ==> d'.b.parsed >= RESPONSE_HEADER_SZ
  {
    var b := Filled(d.b, chunk).value;
    FilledAppends(d.b, HeaderOf(FromServer), chunk);
    ReadsBehindNothing(d.b, HeaderOf(FromServer), chunk);
    var r := Pass(SERVER_RULES, p, c, b, 0).value;
    PassSplits(SERVER_RULES, p, c, b, 0);
    PassKeeps(FromServer, p, c, b, 0);
    assert |b.Pending()| == |Flatten(Msgs(r.log))| + |r.b.Pending()|;
    if r.log != [] {
      assert r.log[0] in r.log && Flatten(Msgs(r.log)) == r.log[0].msg + Flatten(Msgs(r.log)[1..]);
    } else {
      assert Flatten(Msgs(r.log)) == [];
    }
  }

  /** A read that logs nothing only adds pending bytes. */
  lemma OrderedWhileWaiting(side: Side, p: Parser, c: Conn, d: Dir, chunk: seq<byte>)
    requires Settled(d.b, HeaderOf(side)) && d.delivered <= |d.log| && Ordered(d)
    requires Receive(side, p, c, d, chunk).Some? && |Receive(side, p, c, d, chunk).value.d.log| == |d.log|
    ensures var d' := Receive(side, p, c, d, chunk).value.d; d'.b.Valid() && d'.delivered <= |d'.log| && Ordered(d')
  {
    var b := Filled(d.b, chunk).value;
    FilledAppends(d.b, HeaderOf(side), chunk);
    PassNothing(RulesOf(side), p, Refreshed(side, c, b), b, 0);
    assert d.log + [] == d.log;
    Regroup(Flatten(Msgs(d.log)), d.b.Pending(), chunk);
  }

  lemma ReceiveOrders(side: Side, p: Parser, c: Conn, d: Dir, chunk: seq<byte>)
    requires Conserves(side, d) && Receive(side, p, c, d, chunk).Some?
    ensures var d' := Receive(side, p, c, d, chunk).value.d;
      d'.b.Valid() && d'.delivered <= |d'.log| && (!d'.echoed ==> Ordered(d'))
  {
    ReceiveSettles(side, p, c, d, chunk);
    if !Stuck(d.b) {
      if !d.echoed {
        OrderedAfterRead(side, p, c, d, chunk);
      }
    } else if !Receive(side, p, c, d, chunk).value.d.echoed {
      OrderedWhileWaiting(side, p, c, d, chunk);
    }
  }

  lemma ServerNeverEchoes(p: Parser, c: Conn, d: Dir, chunk: seq<byte>)
    requires Conserves(FromServer, d) && Receive(FromServer, p, c, d, chunk).Some?
    ensures var d' := Receive(FromServer, p, c, d, chunk).value.d;
      !d'.echoed && (d'.b.parsed > 0 ==> d'.b.parsed >= RESPONSE_HEADER_SZ)
  {
    if Stuck(d.b) {
      StuckReceives(FromServer, p, c, d, chunk);
    } else {
      ServerParsesAHeader(p, c, d, chunk);
    }
  }

  /** Reading loses, adds and reorders nothing. */
  lemma ReceiveConserves(side: Side, p: Parser, c: Conn, d: Dir, chunk: seq<byte>)
    requires Conserves(side, d) && Receive(side, p, c, d, chunk).Some?
    ensures Conserves(side, Receive(side, p, c, d, chunk).value.d)
  {
    ReceiveSettles(side, p, c, d, chunk);
    ReceiveOrders(side, p, c, d, chunk);
    if side.FromClient? {
      ClientReceives(p, c, d, chunk);
    } else {
      ServerNeverEchoes(p, c, d, chunk);
    }
  }

  lemma FlushConserves(side: Side, d: Dir)
    requires Conserves(side, d) && Flush(d).Some?
    ensures Conserves(side, Flush(d).value)
  {
    var d' := Flush(d).value;
    SentDequeues(d.b, d.b.parsed);
    assert d.b.Unparsed() == 0 && d.b.Data()[..d.b.parsed] == d.b.Data();
    assert d'.b.Data() == [] && d.b.Pending() == [] == d'.b.Pending();
    assert d.log[..|d.log|] == d.log;
  }

  // ---- framing ----

  lemma WellFormedFront(side: Side, o: ByteOrder, b: Buffer, n: nat)
    requires b.Valid() && b.written == b.parsed == 0 && n <= b.read && WellFormed(side, o, b.store[0..n])
    ensures SizeOf(side, o, b.Pending()) == Some(n)
  {
    SizeOfStable(side, o, b.store[0..n], b.store[n..b.read]);
    assert b.Pending() == b.store[0..n] + b.store[n..b.read];
  }

  /** A remembered size under which a message has been logged was the message's own, or that of a cropped one. */
  lemma LoggedSizeIsGenuine(side: Side, p: Parser, c: Conn, b: Buffer)
    requires c.status.Open? && b.Valid() && b.written == b.parsed == 0
    requires b.next.Some? && !b.Incomplete() && b.Unparsed() > 0
    requires Pass(RulesOf(side), p, c, b, 0).Some?
    ensures Genuine(side, Order(p, c), b) || Cropped(side, Order(p, c), b.store[0..b.next.value])
  {
    WholeIsLogged(RulesOf(side), p, c, b, 0);
    HandledFits(side, p, c, b.store[0..b.next.value], 0);
    if WellFormed(side, Order(p, c), b.store[0..b.next.value]) {
      WellFormedFront(side, Order(p, c), b, b.next.value);
    }
  }

  lemma ShortOfItsSize(side: Side, o: ByteOrder, b: Buffer)
    requires b.Valid() && b.next.Some? && b.Incomplete() && Genuine(side, o, b)
    ensures Frames(side, o, b.Pending()).msgs == []
  {
  }

  lemma FirstLogged(side: Side, p: Parser, c: Conn, b: Buffer)
    requires b.Valid() && b.written == b.parsed == 0 && b.next.Some? && !b.Incomplete() && b.Unparsed() > 0
    requires Pass(RulesOf(side), p, c, b, 0).Some?
    ensures var log := Pass(RulesOf(side), p, c, b, 0).value.log; log != [] && log[0].msg == b.store[0..b.next.value]
  {
    PassTurns(RulesOf(side), p, c, b, 0);
    assert b.(next := b.next) == b;
  }

  /** A pass from nothing parsed that ends in order, without a cropped message, leaves no whole one. */
  lemma NothingWholeLeft(side: Side, p: Parser, c: Conn, d: Dir, chunk: seq<byte>)
    requires c.status.Open? && Settled(d.b, HeaderOf(side)) && !Stuck(d.b) && Receive(side, p, c, d, chunk).Some?
    requires var m := Receive(side, p, c, d, chunk).value;
      m.d.b.Valid() && Order(m.p, m.c) == Order(p, c) && Genuine(side, Order(p, c), m.d.b) && !m.d.cropped
    ensures Frames(side, Order(p, c), Receive(side, p, c, d, chunk).value.d.b.Pending()).msgs == []
  {
    var o, b := Order(p, c), Filled(d.b, chunk).value;
    var c' := Refreshed(side, c, b);
    FilledAppends(d.b, HeaderOf(side), chunk);
    ReadsBehindNothing(d.b, HeaderOf(side), chunk);
    if b.next.Some? && b.Incomplete() {
      PassWaits(RulesOf(side), p, c', b, 0);
      ShortOfItsSize(side, o, b);
    } else {
      if b.next.Some? {
        LoggedSizeIsGenuine(side, p, c', b);
        FirstLogged(side, p, c', b);
        assert Msgs(Pass(RulesOf(side), p, c', b, 0).value.log)[0] == b.store[0..b.next.value];
      }
      PassIsFraming(side, p, c', b, 0);
      FramesPartition(side, o, b.Pending());
    }
  }

  lemma StuckStaysParsed(side: Side, p: Parser, c: Conn, d: Dir, chunk: seq<byte>)
    requires Conserves(side, d) && Stuck(d.b) && Receive(side, p, c, d, chunk).Some?
    ensures Receive(side, p, c, d, chunk).value.d.b.parsed > 0
  {
    if d.b.next.Some? {
      StuckReceives(side, p, c, d, chunk);
    } else {
      FilledAppends(d.b, HeaderOf(side), chunk);
      ClientIsPlain();
      PassLeavesBytes(CLIENT_RULES, p, Refreshed(side, c, Filled(d.b, chunk).value), Filled(d.b, chunk).value, 0);
    }
  }

  lemma MoreFit(side: Side, o: ByteOrder, msgs: seq<seq<byte>>, more: seq<seq<byte>>)
    ensures AllFit(side, o, msgs) && AllFit(side, o, more) ==> AllFit(side, o, msgs + more)
    ensures AllWellFormed(side, o, msgs + more) <==> AllWellFormed(side, o, msgs) && AllWellFormed(side, o, more)
  {
    forall i | 0 <= i < |more| ensures (msgs + more)[|msgs| + i] == more[i] {}
    forall i | 0 <= i < |msgs| ensures (msgs + more)[i] == msgs[i] {}
    if AllWellFormed(side, o, msgs + more) {
      forall i | 0 <= i < |more| ensures WellFormed(side, o, more[i]) {
        assert WellFormed(side, o, (msgs + more)[|msgs| + i]);
      }
    }
  }

  lemma LogsFit(side: Side, p: Parser, c: Conn, d: Dir, chunk: seq<byte>)
    requires c.status.Open? && Settled(d.b, HeaderOf(side)) && Framed(side, Order(p, c), d)
    requires Receive(side, p, c, d, chunk).Some?
    ensures var m := Receive(side, p, c, d, chunk).value;
      && InPieces(m.d) && m.d.setup == d.setup && m.d.cuts == d.cuts + [chunk]
      && AllFit(side, Order(p, c), Msgs(m.d.log[d.setup..]))
      && (m.d.cropped <==> !AllWellFormed(side, Order(p, c), Msgs(m.d.log[d.setup..])))
  {
    FilledAppends(d.b, HeaderOf(side), chunk);
    var c' := Refreshed(side, c, Filled(d.b, chunk).value);
    PassKeeps(side, p, c', Filled(d.b, chunk).value, 0);
    var r := Pass(RulesOf(side), p, c', Filled(d.b, chunk).value, 0).value;
    MsgsBehind(d.log, r.log, d.setup);
    MoreFit(side, Order(p, c), Msgs(d.log[d.setup..]), Msgs(r.log));
    MorePieces(d, r.log, chunk);
  }

  lemma MsgsBehind(log: seq<Entry>, more: seq<Entry>, n: nat)
    requires n <= |log|
    ensures Msgs((log + more)[n..]) == Msgs(log[n..]) + Msgs(more)
  {
    assert (log + more)[n..] == log[n..] + more;
  }

  lemma MorePieces(d: Dir, log: seq<Entry>, chunk: seq<byte>)
    requires InPieces(d)
    ensures InPieces(d.(received := d.received + chunk, log := d.log + log, cuts := d.cuts + [chunk]))
  {
    assert (d.log + log)[..d.setup] == d.log[..d.setup];
    FlattenAppend(d.cuts, [chunk]);
    FlattenOne(chunk);
    assert (d.received + chunk)[|Handshake(d)|..] == d.received[|Handshake(d)|..] + chunk;
  }

  /** Reading on an open connection: what is logged is well formed, and no whole message is left over
      unless parsed bytes are stuck behind a partial one. */
  lemma ReceiveFrames(side: Side, p: Parser, c: Conn, d: Dir, chunk: seq<byte>)
    requires c.status.Open? && Conserves(side, d) && Framed(side, Order(p, c), d)
    requires Receive(side, p, c, d, chunk).Some?
    ensures var m := Receive(side, p, c, d, chunk).value;
      m.d.b.Valid() && Kept(p, c.(mem := m.c.mem), m.p, m.c) && Framed(side, Order(p, c), m.d)
  {
    ReceiveKeeps(side, p, c, d, chunk);
    ReceiveSettles(side, p, c, d, chunk);
    LogsFit(side, p, c, d, chunk);
    LeavesNothingWhole(side, p, c, d, chunk);
  }

  lemma LeavesNothingWhole(side: Side, p: Parser, c: Conn, d: Dir, chunk: seq<byte>)
    requires c.status.Open? && Conserves(side, d) && Framed(side, Order(p, c), d)
    requires Receive(side, p, c, d, chunk).Some?
    ensures var d' := Receive(side, p, c, d, chunk).value.d;
      d'.b.Valid() && (!d'.lost && !d'.cropped && !Stuck(d'.b) ==> Frames(side, Order(p, c), d'.b.Pending()).msgs == [])
  {
    var d' := Receive(side, p, c, d, chunk).value.d;
    ReceiveSettles(side, p, c, d, chunk);
    ReceiveKeeps(side, p, c, d, chunk);
    if !d'.lost && !d'.cropped && !Stuck(d'.b) {
      if d'.b.Unparsed() == 0 {
        assert d'.b.Pending() == [];
      } else if Stuck(d.b) {
        StuckStaysParsed(side, p, c, d, chunk);
      } else {
        NothingWholeLeft(side, p, c, d, chunk);
      }
    }
  }

  lemma FlushFrames(side: Side, o: ByteOrder, d: Dir)
    requires Conserves(side, d) && Framed(side, o, d) && Flush(d).Some?
    ensures Framed(side, o, Flush(d).value)
  {
    SentDequeues(d.b, d.b.parsed);
    assert Flush(d).value.b.Pending() == [];
  }

  /** When a size is remembered wrongly: never for a client, and for a server exactly when a read ends
      inside the length of a reply, which is then taken from stale bytes. */
  lemma LostMeansTorn(side: Side, p: Parser, c: Conn, d: Dir, chunk: seq<byte>)
    requires c.status.Open? && Settled(d.b, HeaderOf(side)) && Framed(side, Order(p, c), d)
    requires !d.lost && !Stuck(d.b) && Receive(side, p, c, d, chunk).Some?
    ensures var d' := Receive(side, p, c, d, chunk).value.d;
      d'.b.Valid() && (d'.lost <==> side.FromServer? && !Stuck(d'.b) && Torn(d'.b.Pending()))
  {
    var b := Filled(d.b, chunk).value;
    FilledAppends(d.b, HeaderOf(side), chunk);
    ReadsBehindNothing(d.b, HeaderOf(side), chunk);
    var c' := Refreshed(side, c, b);
    var r := Pass(RulesOf(side), p, c', b, 0).value;
    ReceiveSettles(side, p, c, d, chunk);
    PassKeeps(side, p, c', b, 0);
    PassSplits(RulesOf(side), p, c', b, 0);
    if r.log == [] {
      WaitingIsTorn(side, p, c', d.b, chunk);
    } else {
      SomethingIsParsed(b, r);
    }
  }

  lemma WaitingIsTorn(side: Side, p: Parser, c: Conn, before: Buffer, chunk: seq<byte>)
    requires c.status.Open? && Settled(before, HeaderOf(side)) && Genuine(side, Order(p, c), before)
    requires !Stuck(before) && Filled(before, chunk).Some?
    requires var b := Filled(before, chunk).value;
      b.Valid() && b.written == 0 && Pass(RulesOf(side), p, c, b, 0).Some? && Pass(RulesOf(side), p, c, b, 0).value.log == []
    ensures var r := Pass(RulesOf(side), p, c, Filled(before, chunk).value, 0).value;
      r.b.Valid() && (Genuine(side, Order(p, c), r.b) <==> !(side.FromServer? && Torn(r.b.Pending())))
  {
    var b := Filled(before, chunk).value;
    FilledAppends(before, HeaderOf(side), chunk);
    ReadsBehindNothing(before, HeaderOf(side), chunk);
    PassNothing(RulesOf(side), p, c, b, 0);
    if before.next.Some? {
      SizeOfStable(side, Order(p, c), before.Pending(), chunk);
    } else {
      FreshSizeIsGenuine(side, p, c, b);
    }
  }

  lemma SomethingIsParsed(b: Buffer, r: Passed)
    requires b.Valid() && Splits(b, r) && r.log != []
    ensures r.b.parsed > 0
  {
    assert Flatten(Outs(r.log)) == r.log[0].out + Flatten(Outs(r.log)[1..]);
  }

  lemma FreshSizeIsGenuine(side: Side, p: Parser, c: Conn, b: Buffer)
    requires c.status.Open? && b.Valid() && b.written == b.parsed == 0 && b.next.None? && b.Unparsed() > 0
    requires RulesOf(side).measure(p, c, b, 0).Some?
    requires b.(next := RulesOf(side).measure(p, c, b, 0).value.next).Incomplete()
    ensures var b' := b.(next := RulesOf(side).measure(p, c, b, 0).value.next);
      Genuine(side, Order(p, c), b') <==> !(side.FromServer? && Torn(b'.Pending()))
  {
    var n := RulesOf(side).measure(p, c, b, 0).value.next;
    if n.Some? {
      if side.FromClient? {
        ClientMeasuresGenuinely(p, c, b);
      } else {
        ServerMeasuresGenuinelyUnlessTorn(p, c, b);
      }
    }
  }
}
