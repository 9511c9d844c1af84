/**
 What the client's and the server's loop have in common, and what they measure.
 */
module LoopRules {
  import opened Bytes
  import opened SocketBuffers
  import opened Wire
  import opened Tracking
  import opened Histories
  import opened MessageLoops
  import opened Passes

  lemma ClientIsPlain()
    ensures Plain(CLIENT_RULES)
  {
  }

  /** The longest header that a loop waits for. */
  function HeaderOf(side: Side): nat { if side.FromClient? then INITIATION_HEADER_SZ else RESPONSE_HEADER_SZ }

  lemma BothAreDecisive(side: Side)
    ensures Decisive(RulesOf(side), HeaderOf(side))
  {
  }

  lemma BothAreQuiet(side: Side)
    ensures Quiet(RulesOf(side))
  {
    forall p, c: Conn, m, at | c.status.Open? && RulesOf(side).handle(p, c, m, at).Some?
      ensures RulesOf(side).handle(p, c, m, at).value.c.status.Open?
    {
      HandleKeeps(side, p, c, m, at);
    }
  }

  // ---- what logging never changes ----

  predicate Kept(p: Parser, c: Conn, p': Parser, c': Conn) {
    && p'.host == p.host && p'.allowed == p.allowed && c'.id == c.id
    && (Live(c) ==> Live(c'))
    && (c.status.Open? ==> c'.status.Open? && c'.byteswap == c.byteswap)
    && c'.mem == c.mem
  }

  lemma HandleKeeps(side: Side, p: Parser, c: Conn, m: seq<byte>, at: nat)
    requires RulesOf(side).handle(p, c, m, at).Some?
    ensures Kept(p, c, RulesOf(side).handle(p, c, m, at).value.p, RulesOf(side).handle(p, c, m, at).value.c)
  {
    if c.status.Open? {
      if side.FromClient? {
        RequestHasEffect(p, c, m, at);
      } else {
        ResponseHasEffect(p, c, m);
      }
    }
  }

  lemma MeasureKeeps(side: Side, p: Parser, c: Conn, b: Buffer, cur: nat)
    requires RulesOf(side).measure(p, c, b, cur).Some?
    ensures Kept(p, c, p, RulesOf(side).measure(p, c, b, cur).value.c)
  {
  }

  function KeptFrom(p: Parser, c: Conn): State { (p', c') => Kept(p, c, p', c') }

  function Proper(side: Side, p: Parser, c: Conn): Entry -> bool {
    (e: Entry) =>
      && (c.status.Open? ==> WellFormed(side, Order(p, c), e.msg) || Cropped(side, Order(p, c), e.msg))
      && (if side.FromServer? then |e.msg| >= RESPONSE_HEADER_SZ else e.out == e.msg)
  }

  lemma BothPreserve(side: Side, p0: Parser, c0: Conn)
    ensures Preserves(RulesOf(side), KeptFrom(p0, c0), Proper(side, p0, c0))
  {
    forall p, c, b, cur | Kept(p0, c0, p, c) && RulesOf(side).measure(p, c, b, cur).Some?
      ensures Kept(p0, c0, p, RulesOf(side).measure(p, c, b, cur).value.c)
    {
      MeasureKeeps(side, p, c, b, cur);
    }
    forall p, c, m, at | Kept(p0, c0, p, c) && RulesOf(side).handle(p, c, m, at).Some?
      ensures var l := RulesOf(side).handle(p, c, m, at).value; Kept(p0, c0, l.p, l.c) && Proper(side, p0, c0)(Entry(m, l.out, at))
    {
      HandleKeeps(side, p, c, m, at);
      if c0.status.Open? {
        HandledFits(side, p, c, m, at);
      }
    }
  }

  lemma HandledFits(side: Side, p: Parser, c: Conn, m: seq<byte>, at: nat)
    requires c.status.Open? && RulesOf(side).handle(p, c, m, at).Some?
    ensures WellFormed(side, Order(p, c), m) || (Cropped(side, Order(p, c), m) && PrintsCropped(p, c, m, at))
  {
  }

  /** A connection keeps its serial number, and once open its byte order; logging never writes to the
      client's buffer. */
  lemma PassKeeps(side: Side, p: Parser, c: Conn, b: Buffer, cur: nat)
    requires b.Valid() && cur <= b.written + b.parsed && Pass(RulesOf(side), p, c, b, cur).Some?
    ensures var r := Pass(RulesOf(side), p, c, b, cur).value;
      && Kept(p, c, r.p, r.c) && (c.status.Open? ==> AllFit(side, Order(p, c), Msgs(r.log)))
      && forall e <- r.log :: if side.FromServer? then |e.msg| >= RESPONSE_HEADER_SZ else e.out == e.msg
  {
    BothPreserve(side, p, c);
    PassPreserves(RulesOf(side), KeptFrom(p, c), Proper(side, p, c), p, c, b, cur);
    var r := Pass(RulesOf(side), p, c, b, cur).value;
    forall e <- r.log ensures if side.FromServer? then |e.msg| >= RESPONSE_HEADER_SZ else e.out == e.msg {
      assert Proper(side, p, c)(e);
    }
    if c.status.Open? {
      forall i | 0 <= i < |r.log| ensures WellFormed(side, Order(p, c), Msgs(r.log)[i]) || Cropped(side, Order(p, c), Msgs(r.log)[i]) {
        assert Proper(side, p, c)(r.log[i]);
      }
    }
  }

  // ---- measuring an open connection's messages ----

  /** Reading the store at the data pointer is reading the pending bytes. */
  lemma PendingAt(p: Parser, c: Conn, b: Buffer, cur: nat, i: nat)
    requires b.Valid() && Aligned(b, cur)
    ensures i + 2 <= b.Unparsed() ==> Ordered16(p.host, c.byteswap, b.store, cur + i) == U16(Order(p, c), b.Pending(), i)
    ensures i + 2 <= b.Unparsed() ==> (U16(p.host, b.store, cur + i) == 0 <==> U16(Order(p, c), b.Pending(), i) == 0)
    ensures i + 4 <= b.Unparsed() ==> Ordered32(p.host, c.byteswap, b.store, cur + i) == U32(Order(p, c), b.Pending(), i)
  {
    OrderedAt(p.host, c.byteswap, b.store, cur + i);
    var s := b.Pending();
    assert forall j :: 0 <= j < |s| ==> s[j] == b.store[cur + j];
  }

  lemma ClientIsFaithful(p: Parser, c: Conn, b: Buffer, cur: nat)
    requires c.status.Open? && b.Valid() && Aligned(b, cur) && MeasureClient(p, c, b, cur).Some?
    requires SizeOf(FromClient, Order(p, c), b.Pending()).Some?
    ensures MeasureClient(p, c, b, cur).value.next == SizeOf(FromClient, Order(p, c), b.Pending())
  {
    PendingAt(p, c, b, cur, 2);
    PendingAt(p, c, b, cur, 4);
  }

  lemma ServerIsFaithful(p: Parser, c: Conn, b: Buffer, cur: nat)
    requires c.status.Open? && b.Valid() && Aligned(b, cur) && MeasureServer(p, c, b, cur).Some?
    requires SizeOf(FromServer, Order(p, c), b.Pending()).Some?
    ensures MeasureServer(p, c, b, cur).value.next == SizeOf(FromServer, Order(p, c), b.Pending())
  {
    PendingAt(p, c, b, cur, 4);
    assert b.Pending()[0] == b.store[cur];
  }

  /** Waiting for the rest of a message of which nothing is parsed: the size, if set, is the message's own. */
  lemma ClientMeasuresGenuinely(p: Parser, c: Conn, b: Buffer)
    requires c.status.Open? && b.Valid() && b.parsed == 0 && MeasureClient(p, c, b, b.written).Some?
    requires var n := MeasureClient(p, c, b, b.written).value.next; n.Some? && b.Unparsed() < n.value
    ensures MeasureClient(p, c, b, b.written).value.next == SizeOf(FromClient, Order(p, c), b.Pending())
  {
    PendingAt(p, c, b, b.written, 2);
    PendingAt(p, c, b, b.written, 4);
  }

  /** ... except that the server loop reads a reply's length before the bytes that hold it are there. */
  predicate Torn(s: seq<byte>) { 4 <= |s| < 8 && s[0] == REPLY_PREFIX }

  lemma ServerMeasuresGenuinelyUnlessTorn(p: Parser, c: Conn, b: Buffer)
    requires c.status.Open? && b.Valid() && b.parsed == 0 && MeasureServer(p, c, b, b.written).Some?
    requires var n := MeasureServer(p, c, b, b.written).value.next; n.Some? && b.Unparsed() < n.value
    ensures MeasureServer(p, c, b, b.written).value.next == SizeOf(FromServer, Order(p, c), b.Pending()) || Torn(b.Pending())
  {
    PendingAt(p, c, b, b.written, 4);
  }

  /** No whole message at the front. */
  function NoWhole(side: Side, o: ByteOrder): seq<byte> -> bool { s => Frames(side, o, s).msgs == [] }

  /** A remembered size is the pending message's own. */
  predicate Genuine(side: Side, o: ByteOrder, b: Buffer)
    requires b.Valid()
  {
    b.next.None? || b.next == SizeOf(side, o, b.Pending())
  }

  lemma BothWaitOnly(side: Side, p0: Parser, c0: Conn)
    requires c0.status.Open?
    ensures WaitsOnly(RulesOf(side), KeptFrom(p0, c0), NoWhole(side, Order(p0, c0)))
  {
    forall p, c, b: Buffer, cur | Kept(p0, c0, p, c) && b.Valid() && Aligned(b, cur) && Waits(RulesOf(side), p, c, b, cur)
      ensures Frames(side, Order(p0, c0), b.Pending()).msgs == []
    {
      if SizeOf(side, Order(p, c), b.Pending()).Some? {
        if side.FromClient? {
          ClientIsFaithful(p, c, b, cur);
        } else {
          ServerIsFaithful(p, c, b, cur);
        }
      }
    }
  }

  /** One pass over an open connection's bytes logs their framing, and leaves the framing's rest, unless it
      logs a cropped request. */
  lemma PassIsFraming(side: Side, p: Parser, c: Conn, b: Buffer, cur: nat)
    requires b.Valid() && Aligned(b, cur) && c.status.Open? && Genuine(side, Order(p, c), b)
    requires Pass(RulesOf(side), p, c, b, cur).Some?
    ensures var r := Pass(RulesOf(side), p, c, b, cur).value;
      && r.b.Valid()
      && (AllWellFormed(side, Order(p, c), Msgs(r.log)) ==> Frames(side, Order(p, c), b.Pending()) == Framing(Msgs(r.log), r.b.Pending()))
  {
    var r := Pass(RulesOf(side), p, c, b, cur).value;
    PassSplits(RulesOf(side), p, c, b, cur);
    BothPreserve(side, p, c);
    BothWaitOnly(side, p, c);
    PassStops(RulesOf(side), KeptFrom(p, c), Proper(side, p, c), NoWhole(side, Order(p, c)), p, c, b, cur);
    if AllWellFormed(side, Order(p, c), Msgs(r.log)) {
      FramesUnique(side, Order(p, c), Msgs(r.log), r.b.Pending());
    }
  }

  /** The server's loop never logs anything else. */
  lemma ServerPassIsFraming(p: Parser, c: Conn, b: Buffer, cur: nat)
    requires b.Valid() && Aligned(b, cur) && c.status.Open? && Genuine(FromServer, Order(p, c), b)
    requires Pass(SERVER_RULES, p, c, b, cur).Some?
    ensures var r := Pass(SERVER_RULES, p, c, b, cur).value;
      && r.b.Valid() && AllWellFormed(FromServer, Order(p, c), Msgs(r.log))
      && Frames(FromServer, Order(p, c), b.Pending()) == Framing(Msgs(r.log), r.b.Pending())
  {
    PassKeeps(FromServer, p, c, b, cur);
    PassIsFraming(FromServer, p, c, b, cur);
  }
}
