/**
 When the client's loop frames a message again that it has parsed already: it starts at the first byte that
 is not sent, whatever is parsed, so bytes behind a parsed message that are too few to tell a size make it
 start over.
 */
module Echo {
  import opened Bytes
  import opened SocketBuffers
  import opened Wire
  import opened Tracking
  import opened Histories
  import opened MessageLoops
  import opened Passes
  import opened LoopRules
  import opened Crops
  import opened Relay
  import opened Worlds
  import opened WorldRuns
  import opened Cuts

  /** One parsed request of one unit, and one to three bytes behind it whose size is not known. */
  predicate Echoing(o: ByteOrder, b: Buffer) {
    && b.Valid() && b.written == 0 && b.parsed == 4 && 5 <= b.read <= 7 && b.next.None?
    && WellFormed(FromClient, o, b.store[..4])
  }

  /** A read that frames exactly one request, of one unit, and ends one to three bytes behind it. */
  predicate ShortCut(o: ByteOrder, rest: seq<byte>, piece: seq<byte>) {
    var f := Frames(FromClient, o, rest + piece);
    |f.msgs| == 1 && |f.msgs[0]| == 4 && 1 <= |f.tail| <= 3
  }

  // ---- when it comes to that ----

  lemma ZeroOctets(o: ByteOrder, s: seq<byte>, i: nat)
    requires i + 2 <= |s|
    ensures U16(o, s, i) == 0 <==> s[i] == s[i + 1] == 0
  {
  }

  /** The client's loop cannot tell a size behind something parsed only within the first eight bytes, and
      only where the length field reads as zero. */
  lemma CannotTell(p: Parser, c: Conn, b: Buffer, n: Option<nat>)
    requires c.status.Open? && b.Valid() && b.written == 0 && b.parsed >= 4 && b.Unparsed() > 0
    requires MeasureClient(p, c, b, b.parsed) == Some(Measured(c, n))
    ensures n.None? <==> b.read < 8 && b.parsed + 4 <= |b.store| && b.store[b.parsed + 2] == b.store[b.parsed + 3] == 0
  {
    if b.parsed + 4 <= |b.store| {
      ZeroOctets(p.host, b.store, b.parsed + 2);
    }
  }

  lemma TwoAreEight(o: ByteOrder, msgs: seq<seq<byte>>)
    requires AllWellFormed(FromClient, o, msgs) && |msgs| > 1
    ensures |Flatten(msgs)| >= 8
  {
    assert WellFormed(FromClient, o, msgs[0]) && WellFormed(FromClient, o, msgs[1]);
    assert Flatten(msgs[1..]) == msgs[1] + Flatten(msgs[1..][1..]);
  }

  lemma ShortFlatten(o: ByteOrder, msgs: seq<seq<byte>>)
    requires AllWellFormed(FromClient, o, msgs) && msgs != [] && |Flatten(msgs)| < 8
    ensures |msgs| == 1 && |msgs[0]| == 4 && Flatten(msgs) == msgs[0]
  {
    assert WellFormed(FromClient, o, msgs[0]);
    if |msgs| > 1 {
      TwoAreEight(o, msgs);
    } else {
      FlattenOne(msgs[0]);
      assert msgs == [msgs[0]];
    }
  }

  /** A read from a client that is in order leaves parsed bytes, and behind them bytes of no known size, if
      and only if it frames exactly one request, of one unit, ends one to three bytes behind it, and the
      length field of what is behind it reads as zero, stale bytes included. */
  lemma EchoesExactly(p: Parser, c: Conn, d: Dir, chunk: seq<byte>)
    requires c.status.Open? && Conserves(FromClient, d) && Relay.Framed(FromClient, Order(p, c), d) && InOrder(d)
    requires Receive(FromClient, p, c, d, chunk).Some?
    ensures var b := Receive(FromClient, p, c, d, chunk).value.d.b; var o := Order(p, c);
      && b.Valid() && |b.store| >= 8
      && (Stuck(b) && b.next.None? <==> ShortCut(o, d.b.Pending(), chunk) && b.store[6] == b.store[7] == 0)
      && (Stuck(b) && b.next.None? ==> Echoing(o, b) && Frames(FromClient, o, d.b.Pending() + chunk).msgs == [b.store[..4]])
  {
    SticksExactly(FromClient, p, c, d, chunk);
    if Receive(FromClient, p, c, d, chunk).value.d.cropped {
      CropsUnechoed(p, c, d, chunk);
    } else {
      var b := Filled(d.b, chunk).value;
      InOrderPass(FromClient, p, c, d, chunk);
      ReceiveSettles(FromClient, p, c, d, chunk);
      PassEchoes(p, Refreshed(FromClient, c, b), b, Pass(CLIENT_RULES, p, Refreshed(FromClient, c, b), b, 0).value,
                 Frames(FromClient, Order(p, c), d.b.Pending() + chunk));
    }
  }

  /** Where something is cropped there are eight bytes, which is too much for that. */
  lemma CropsUnechoed(p: Parser, c: Conn, d: Dir, chunk: seq<byte>)
    requires c.status.Open? && Conserves(FromClient, d) && Relay.Framed(FromClient, Order(p, c), d) && InOrder(d)
    requires Receive(FromClient, p, c, d, chunk).Some? && Receive(FromClient, p, c, d, chunk).value.d.cropped
    ensures var b := Receive(FromClient, p, c, d, chunk).value.d.b;
      b.Valid() && |b.store| >= 8 && !(Stuck(b) && b.next.None?) && !ShortCut(Order(p, c), d.b.Pending(), chunk)
  {
    var b := Filled(d.b, chunk).value;
    var c' := Refreshed(FromClient, c, b);
    var r := Pass(CLIENT_RULES, p, c', b, 0).value;
    InOrderPass(FromClient, p, c, d, chunk);
    ReceiveSettles(FromClient, p, c, d, chunk);
    CropsExactly(p, c, d, chunk);
    ClientTakes(p, c', b, 0, r);
    TooShortToTell(p, c', b, r);
    assert |b.Pending()| == b.Size() >= 8;
    if ShortCut(Order(p, c), d.b.Pending(), chunk) {
      ShortCutIsShort(Order(p, c), d.b.Pending(), chunk);
    }
  }

  lemma ShortCutIsShort(o: ByteOrder, rest: seq<byte>, piece: seq<byte>)
    requires ShortCut(o, rest, piece)
    ensures |rest + piece| < 8
  {
    var f := Frames(FromClient, o, rest + piece);
    FramesPartition(FromClient, o, rest + piece);
    FlattenOne(f.msgs[0]);
    assert f.msgs == [f.msgs[0]];
  }

  /** Bytes of no known size behind parsed ones are there only if the buffer holds less than eight. */
  lemma TooShortToTell(p: Parser, c: Conn, b: Buffer, r: Passed)
    requires c.status.Open? && b.Valid() && b.written == b.parsed == 0 && Pass(CLIENT_RULES, p, c, b, 0) == Some(r)
    requires Settled(r.b, HeaderOf(FromClient))
    ensures |r.b.store| >= 8 && (Stuck(r.b) && r.b.next.None? ==> r.b.read < 8)
  {
    ClientTakes(p, c, b, 0, r);
    ClientEnds(p, c, b, 0, r);
    assert |r.b.store| >= BLOCK_SZ;
    if Stuck(r.b) && r.b.next.None? {
      FirstIsLong(Order(p, c), Msgs(r.log));
      CannotTell(r.p, r.c, r.b.(next := None), r.b.next);
    }
  }

  lemma FirstIsLong(o: ByteOrder, msgs: seq<seq<byte>>)
    requires AllFit(FromClient, o, msgs) && |Flatten(msgs)| > 0
    ensures msgs != [] && |Flatten(msgs)| >= 4
  {
    assert WellFormed(FromClient, o, msgs[0]) || Cropped(FromClient, o, msgs[0]);
  }

  lemma PassEchoes(p: Parser, c: Conn, b: Buffer, r: Passed, f: Framing)
    requires c.status.Open? && b.Valid() && b.written == b.parsed == 0 && Pass(CLIENT_RULES, p, c, b, 0) == Some(r)
    requires Settled(r.b, HeaderOf(FromClient)) && f == Framing(Msgs(r.log), r.b.Pending())
    requires AllWellFormed(FromClient, Order(p, c), f.msgs)
    ensures |r.b.store| >= 8
    ensures Stuck(r.b) && r.b.next.None? <==>
      |f.msgs| == 1 && |f.msgs[0]| == 4 && 1 <= |f.tail| <= 3 && r.b.store[6] == r.b.store[7] == 0
    ensures Stuck(r.b) && r.b.next.None? ==> Echoing(Order(p, c), r.b) && f.msgs == [r.b.store[..4]]
  {
    ClientTakes(p, c, b, 0, r);
    ClientEnds(p, c, b, 0, r);
    assert r.b.parsed == |Flatten(f.msgs)|;
    EchoCases(Order(p, c), r.p, r.c, r.b, f);
  }

  /** What a pass over a client's bytes logs, from wherever it starts. */
  lemma ClientTakes(p: Parser, c: Conn, b: Buffer, cur: nat, r: Passed)
    requires c.status.Open? && b.Valid() && cur <= b.written + b.parsed && Pass(CLIENT_RULES, p, c, b, cur) == Some(r)
    ensures var n := |Flatten(Msgs(r.log))|;
      && r.b == b.(parsed := b.parsed + n, next := r.b.next) && r.b.Valid()
      && cur + n <= |b.store| && Flatten(Msgs(r.log)) == b.store[cur..cur + n]
  {
    ClientIsPlain();
    PassTakes(CLIENT_RULES, p, c, b, cur);
    PassLeavesBytes(CLIENT_RULES, p, c, b, cur);
  }

  /** ... and how it ends. */
  lemma ClientEnds(p: Parser, c: Conn, b: Buffer, cur: nat, r: Passed)
    requires c.status.Open? && b.Valid() && cur <= b.written + b.parsed && Pass(CLIENT_RULES, p, c, b, cur) == Some(r)
    ensures r.c.status.Open? && Order(r.p, r.c) == Order(p, c) && AllFit(FromClient, Order(p, c), Msgs(r.log))
    ensures Ends(CLIENT_RULES, b, cur, r)
  {
    BothAreQuiet(FromClient);
    PassEnds(CLIENT_RULES, p, c, b, cur);
    PassKeeps(FromClient, p, c, b, cur);
  }

  lemma EchoCases(o: ByteOrder, p: Parser, c: Conn, b: Buffer, f: Framing)
    requires c.status.Open? && Settled(b, HeaderOf(FromClient))
    requires f.tail == b.Pending() && AllWellFormed(FromClient, o, f.msgs)
    requires b.parsed == |Flatten(f.msgs)| && Flatten(f.msgs) == b.store[0..b.parsed]
    requires b.Unparsed() > 0 && f.msgs != [] ==> LastMeasured(CLIENT_RULES, p, c, b, b.parsed)
    ensures |b.store| >= 8
    ensures Stuck(b) && b.next.None? <==>
      |f.msgs| == 1 && |f.msgs[0]| == 4 && 1 <= |f.tail| <= 3 && b.store[6] == b.store[7] == 0
    ensures Stuck(b) && b.next.None? ==> Echoing(o, b) && f.msgs == [b.store[..4]]
  {
    assert |b.store| >= BLOCK_SZ && b.store[0..b.parsed] == b.store[..b.parsed];
    if f.msgs != [] {
      assert WellFormed(FromClient, o, f.msgs[0]) && Flatten(f.msgs) == f.msgs[0] + Flatten(f.msgs[1..]);
      if b.Unparsed() > 0 {
        CannotTell(p, c, b.(next := None), b.next);
        if b.next.None? {
          ShortFlatten(o, f.msgs);
        } else if |f.msgs| == 1 {
          FlattenOne(f.msgs[0]);
          assert f.msgs == [f.msgs[0]];
        }
      }
    } else {
      assert Flatten(f.msgs) == [];
    }
  }

  // ---- what the next read does then ----

  /** The next read frames the parsed request again if and only if four bytes or more are then behind it.
      Otherwise it takes the request's size for that of what is behind it, and the size that the read after
      it asks for wraps. */
  lemma EchoAgainExactly(p: Parser, c: Conn, d: Dir, chunk: seq<byte>)
    requires c.status.Open? && Settled(d.b, HeaderOf(FromClient)) && Echoing(Order(p, c), d.b)
    requires Receive(FromClient, p, c, d, chunk).Some?
    ensures var d' := Receive(FromClient, p, c, d, chunk).value.d; var again := d'.log[|d.log|..];
      && (again != [] <==> |d.b.Pending() + chunk| >= 4)
      && (again != [] ==> again[0].msg == d.b.store[..4])
      && (again == [] ==> d'.b.Valid() && Stuck(d'.b) && d'.b.next == Some(4) && BytesToRead(d'.b).None?)
      && d'.echoed == (d.echoed || again != [])
  {
    var b := Filled(d.b, chunk).value;
    var c' := Refreshed(FromClient, c, b);
    FilledAppends(d.b, HeaderOf(FromClient), chunk);
    FrontKept(d.b, b, chunk);
    var r := Pass(CLIENT_RULES, p, c', b, 0).value;
    assert (d.log + r.log)[|d.log|..] == r.log;
    StartsOver(p, c', b);
  }

  lemma FrontKept(b: Buffer, b': Buffer, chunk: seq<byte>)
    requires b.Valid() && b'.Valid() && b.written == b'.written == 0 && b.parsed == 4 == b'.parsed
    requires b'.Data() == b.Data() + chunk && b.read >= 4 && b'.read >= 4
    ensures b'.store[..4] == b.store[..4]
  {
    assert b'.store[..4] == b'.Data()[..4] && b.store[..4] == b.Data()[..4];
  }

  lemma StartsOver(p: Parser, c: Conn, b: Buffer)
    requires c.status.Open? && b.Valid() && b.written == 0 && b.parsed == 4 && b.next.None? && b.Unparsed() > 0
    requires WellFormed(FromClient, Order(p, c), b.store[..4]) && Pass(CLIENT_RULES, p, c, b, 0).Some?
    ensures var r := Pass(CLIENT_RULES, p, c, b, 0).value;
      && (r.log != [] <==> b.Unparsed() >= 4)
      && (r.log != [] ==> r.log[0].msg == b.store[..4])
      && (r.log == [] ==> r.b == b.(next := Some(4)))
  {
    MeasuresUnit(p, c, b);
    PassTurns(CLIENT_RULES, p, c, b, 0);
    assert b.store[0..4] == b.store[..4];
  }

  lemma MeasuresUnit(p: Parser, c: Conn, b: Buffer)
    requires c.status.Open? && b.Valid() && b.written == 0 && b.parsed == 4 && b.next.None?
    requires WellFormed(FromClient, Order(p, c), b.store[..4])
    ensures MeasureClient(p, c, b, 0) == Some(Measured(c, Some(4)))
  {
    UnitLength(Order(p, c), b.store);
    OneInEitherOrder(p.host, c.byteswap, b.store, 2);
    MeasuresLength(p, c, b);
  }

  lemma UnitLength(o: ByteOrder, s: seq<byte>)
    requires |s| >= 4 && WellFormed(FromClient, o, s[..4])
    ensures U16(o, s, 2) == 1
  {
  }

  lemma MeasuresLength(p: Parser, c: Conn, b: Buffer)
    requires c.status.Open? && b.Valid() && b.Size() >= 4 && b.written == 0
    requires U16(p.host, b.store, 2) != 0 && Ordered16(p.host, c.byteswap, b.store, 2) == 1
    ensures MeasureClient(p, c, b, 0) == Some(Measured(c, Some(4)))
  {
  }

  // ---- what is sent then ----

  /** A message boundary `n` bytes into a stream framed as `f`. */
  ghost predicate Boundary(f: Framing, n: nat) {
    exists i: nat :: i <= |f.msgs| && n == |Flatten(f.msgs[..i])|
  }

  lemma Longer(msgs: seq<seq<byte>>, i: nat, j: nat)
    requires i < j <= |msgs|
    ensures |Flatten(msgs[..j])| >= |Flatten(msgs[..i])| + |msgs[i]|
    ensures j == i + 1 ==> |Flatten(msgs[..j])| == |Flatten(msgs[..i])| + |msgs[i]|
  {
    assert msgs[..j] == msgs[..i] + msgs[i..j];
    FlattenAppend(msgs[..i], msgs[i..j]);
    assert Flatten(msgs[i..j]) == msgs[i] + Flatten(msgs[i..j][1..]);
  }

  /** Four bytes behind a boundary is a boundary if and only if the message between is of one unit. */
  lemma UnitBehind(f: Framing, j: nat)
    requires j <= |f.msgs| && forall m <- f.msgs :: |m| >= 4
    ensures Boundary(f, |Flatten(f.msgs[..j])| + 4) <==> j < |f.msgs| && |f.msgs[j]| == 4
  {
    if j < |f.msgs| && |f.msgs[j]| == 4 {
      Longer(f.msgs, j, j + 1);
    } else if Boundary(f, |Flatten(f.msgs[..j])| + 4) {
      var i: nat :| i <= |f.msgs| && |Flatten(f.msgs[..j])| + 4 == |Flatten(f.msgs[..i])|;
      if i < j {
        Longer(f.msgs, i, j);
      } else if i > j + 1 {
        assert f.msgs[j] in f.msgs && f.msgs[j + 1] in f.msgs;
        Longer(f.msgs, j, j + 1);
        Longer(f.msgs, j + 1, i);
      } else if i == j + 1 {
        Longer(f.msgs, j, j + 1);
      }
    }
  }

  /** What is logged when a request is framed again: the messages `again`, which are the first of the stream's
      framing `f`, as far as four bytes before the end of the `n` bytes held; `ready` are ready to be sent. */
  ghost predicate LoggedFrom(f: Framing, again: seq<seq<byte>>, n: nat, ready: nat) {
    var j := |again|;
    && j <= |f.msgs| && again == f.msgs[..j]
    && (j < |f.msgs| ==> |Flatten(f.msgs[..j + 1])| + 4 > n)
    && (Boundary(f, ready) <==> j < |f.msgs| && |f.msgs[j]| == 4)
  }

  /** A read that frames the request again has four bytes more than the logged messages ready to be sent.
      Unless the stream goes on, behind its whole messages, with a request of extended length one, it logs the
      stream from its first message on, but as far as four bytes before its end only; so what is ready ends on a
      message boundary if and only if the next message is of one unit. */
  lemma EchoSends(p: Parser, c: Conn, d: Dir, chunk: seq<byte>)
    requires c.status.Open? && Settled(d.b, HeaderOf(FromClient)) && Echoing(Order(p, c), d.b)
    requires Receive(FromClient, p, c, d, chunk).Some? && |d.b.Pending() + chunk| >= 4
    ensures var m := Receive(FromClient, p, c, d, chunk).value; var s := d.b.Data() + chunk;
      var f := Frames(FromClient, Order(p, c), s); var again := Msgs(m.d.log[|d.log|..]);
      && |again| >= 1
      && m.d.b.Valid() && m.d.b.Data() == s && m.d.b.parsed == |Flatten(again)| + 4
      && (!EndsInItsHeader(FromClient, Order(p, c), f.tail) ==> LoggedFrom(f, again, |s|, m.d.b.parsed))
  {
    var b := Filled(d.b, chunk).value;
    var c' := Refreshed(FromClient, c, b);
    FilledAppends(d.b, HeaderOf(FromClient), chunk);
    FrontKept(d.b, b, chunk);
    StartsOver(p, c', b);
    var r := Pass(CLIENT_RULES, p, c', b, 0).value;
    assert (d.log + r.log)[|d.log|..] == r.log;
    FramedAgain(p, c', b, r);
    assert r.b.Data() == b.Data();
  }

  lemma FramedAgain(p: Parser, c: Conn, b: Buffer, r: Passed)
    requires c.status.Open? && b.Valid() && b.written == 0 && b.parsed == 4 && b.next.None? && b.Unparsed() > 0
    requires Pass(CLIENT_RULES, p, c, b, 0) == Some(r) && c.mem == b.store
    ensures var s := b.store[..b.read]; var f := Frames(FromClient, Order(p, c), s); var again := Msgs(r.log);
      && r.b == b.(parsed := |Flatten(again)| + 4, next := r.b.next) && r.b.Valid()
      && (!EndsInItsHeader(FromClient, Order(p, c), f.tail) ==> LoggedFrom(f, again, |s|, r.b.parsed))
  {
    ClientTakes(p, c, b, 0, r);
    ClientEnds(p, c, b, 0, r);
    if AllWellFormed(FromClient, Order(p, c), Msgs(r.log)) {
      LoggedAgain(r.p, r.c, b, r.b, Msgs(r.log));
    } else {
      CroppedAgain(p, c, b, r);
    }
  }

  lemma CroppedAgain(p: Parser, c: Conn, b: Buffer, r: Passed)
    requires c.status.Open? && b.Valid() && b.written == 0 && b.parsed == 4 && c.mem == b.store
    requires Pass(CLIENT_RULES, p, c, b, 0) == Some(r) && !AllWellFormed(FromClient, Order(p, c), Msgs(r.log))
    ensures EndsInItsHeader(FromClient, Order(p, c), Frames(FromClient, Order(p, c), b.store[..b.read]).tail)
  {
    var s := b.store[..b.read];
    ClientIsPlain();
    PassTakes(CLIENT_RULES, p, c, b, 0);
    PassLeavesBytes(CLIENT_RULES, p, c, b, 0);
    AllAnnounced(p, c, b, 0);
    JoinedIsFlat(r.log);
    assert s == b.store[0..0 + |s|] && Joined(r.log) == s[..|Joined(r.log)|];
    CroppedEnds(Order(p, c), b.store, r.log, 0, s);
  }

  lemma LoggedAgain(p: Parser, c: Conn, b: Buffer, b': Buffer, again: seq<seq<byte>>)
    requires c.status.Open? && b.Valid() && b'.Valid() && b.written == 0 && b.parsed == 4
    requires AllWellFormed(FromClient, Order(p, c), again)
    requires b' == b.(parsed := |Flatten(again)| + 4, next := b'.next) && Flatten(again) == b.store[0..|Flatten(again)|]
    requires b'.Unparsed() > 0 ==> b'.Incomplete() && LastMeasured(CLIENT_RULES, p, c, b', |Flatten(again)|)
    ensures LoggedFrom(Frames(FromClient, Order(p, c), b.store[..b.read]), again, b.read, b'.parsed)
  {
    var o, s, n := Order(p, c), b.store[..b.read], |Flatten(again)|;
    assert s[..n] == b.store[0..n] && s[n..] == b.store[n..b.read];
    FramesFrom(o, s, again);
    FramesAreLong(o, s);
    NextIsUnit(Frames(FromClient, o, s), again, Frames(FromClient, o, s[n..]).msgs);
    if Frames(FromClient, o, s[n..]).msgs != [] {
      NoMoreFits(p, c, b', n);
    }
  }

  /** Framing from the end of some messages on is the rest of the framing. */
  lemma FramesFrom(o: ByteOrder, s: seq<byte>, msgs: seq<seq<byte>>)
    requires AllWellFormed(FromClient, o, msgs) && |Flatten(msgs)| <= |s| && Flatten(msgs) == s[..|Flatten(msgs)|]
    ensures Frames(FromClient, o, s).msgs == msgs + Frames(FromClient, o, s[|Flatten(msgs)|..]).msgs
  {
    var n := |Flatten(msgs)|;
    assert s == Flatten(msgs) + s[n..] && Flatten(msgs) + [] == Flatten(msgs);
    FramesUnique(FromClient, o, msgs, []);
    FramesExtend(FromClient, o, Flatten(msgs), s[n..]);
    assert [] + s[n..] == s[n..];
  }

  lemma FramesAreLong(o: ByteOrder, s: seq<byte>)
    ensures forall m <- Frames(FromClient, o, s).msgs :: |m| >= 4
  {
    var f := Frames(FromClient, o, s);
    FramesPartition(FromClient, o, s);
    forall m | m in f.msgs ensures |m| >= 4 {
      var i :| 0 <= i < |f.msgs| && f.msgs[i] == m;
      assert WellFormed(FromClient, o, f.msgs[i]);
    }
  }

  /** What there is to say of the first `again` of the messages `f`, which are followed by `rest`. */
  lemma NextIsUnit(f: Framing, again: seq<seq<byte>>, rest: seq<seq<byte>>)
    requires f.msgs == again + rest && forall m <- f.msgs :: |m| >= 4
    ensures |again| <= |f.msgs| && f.msgs[..|again|] == again
    ensures rest != [] ==> |Flatten(f.msgs[..|again| + 1])| == |Flatten(again)| + |rest[0]|
    ensures Boundary(f, |Flatten(again)| + 4) <==> |again| < |f.msgs| && |f.msgs[|again|]| == 4
  {
    assert f.msgs[..|again|] == again;
    if rest != [] {
      Longer(f.msgs, |again|, |again| + 1);
    }
    UnitBehind(f, |again|);
  }

  /** Where the loop stops, four bytes short of what is parsed, the next message ends in the last four bytes
      or beyond. */
  lemma NoMoreFits(p: Parser, c: Conn, b: Buffer, cur: nat)
    requires c.status.Open? && b.Valid() && b.written == 0 && b.parsed == cur + 4
    requires b.Unparsed() > 0 ==> b.Incomplete() && LastMeasured(CLIENT_RULES, p, c, b, cur)
    requires Frames(FromClient, Order(p, c), b.store[cur..b.read]).msgs != []
    ensures |Frames(FromClient, Order(p, c), b.store[cur..b.read]).msgs[0]| > b.Unparsed()
  {
    var o, s := Order(p, c), b.store[cur..b.read];
    var back := b.(parsed := cur, next := None);
    assert back.Pending() == s;
    if b.Unparsed() > 0 {
      assert MeasureClient(p, c, back, cur) == MeasureClient(p, c, b.(next := None), cur);
      ClientIsFaithful(p, c, back, cur);
    }
  }

  // ---- whole runs ----

  /** A read that frames what is followed by a request of extended length one, as far as can be told. */
  predicate MayCrop(o: ByteOrder, rest: seq<byte>, piece: seq<byte>) {
    var t := Frames(FromClient, o, rest + piece).tail;
    |rest + piece| >= 8 && |t| >= 4 && U16(o, t, 2) == 0 && (|t| >= 8 ==> U32(o, t, 4) == 1)
  }

  predicate MildCut(o: ByteOrder, rest: seq<byte>, piece: seq<byte>) { !ShortCut(o, rest, piece) && !MayCrop(o, rest, piece) }

  /** Nothing was sent behind the client's first message before it was answered, and no read was a short cut
      or may have cropped a request. */
  predicate NoShortCuts(o: ByteOrder, cuts: seq<seq<byte>>) {
    && cuts != [] && cuts[0] == []
    && forall i :: 1 <= i < |cuts| ==> MildCut(o, Frames(FromClient, o, Flatten(cuts[..i])).tail, cuts[i])
  }

  lemma MoreShortCuts(o: ByteOrder, cuts: seq<seq<byte>>, piece: seq<byte>)
    requires cuts != [] && NoShortCuts(o, cuts + [piece])
    ensures NoShortCuts(o, cuts) && MildCut(o, Frames(FromClient, o, Flatten(cuts)).tail, piece)
  {
    var cuts' := cuts + [piece];
    assert cuts'[..|cuts|] == cuts && cuts'[|cuts|] == piece;
    forall i | 1 <= i < |cuts| ensures cuts'[..i] == cuts[..i] && cuts'[i] == cuts[i] {}
  }

  /** In order, or waiting for ever for the rest of a message behind a whole one. */
  predicate Unechoing(d: Dir)
    requires d.b.Valid()
  {
    !d.echoed && !d.cropped && (InOrder(d) || (Stuck(d.b) && d.b.next.Some?))
  }

  lemma MildBuffer(o: ByteOrder, b: Buffer, f: Framing)
    requires b.Valid() && b.written == b.parsed == 0 && b.Pending() == Flatten(f.msgs) + f.tail
    requires !(b.Size() >= 8 && |f.tail| >= 4 && U16(o, f.tail, 2) == 0 && (|f.tail| >= 8 ==> U32(o, f.tail, 4) == 1))
    ensures !CropsAt(o, b, f)
  {
    if |f.tail| >= 8 {
      TailIsThere(o, b, f);
    }
  }

  lemma MildIsUncropped(p: Parser, c: Conn, d: Dir, chunk: seq<byte>)
    requires c.status.Open? && Conserves(FromClient, d) && Relay.Framed(FromClient, Order(p, c), d) && InOrder(d)
    requires Receive(FromClient, p, c, d, chunk).Some? && !MayCrop(Order(p, c), d.b.Pending(), chunk)
    ensures !Receive(FromClient, p, c, d, chunk).value.d.cropped
  {
    CropsExactly(p, c, d, chunk);
    InOrderPass(FromClient, p, c, d, chunk);
    FramesPartition(FromClient, Order(p, c), d.b.Pending() + chunk);
    var b := Filled(d.b, chunk).value;
    assert |b.Pending()| == b.Size();
    MildBuffer(Order(p, c), b, Frames(FromClient, Order(p, c), d.b.Pending() + chunk));
  }

  lemma InOrderDoesNotEcho(p: Parser, c: Conn, d: Dir, chunk: seq<byte>)
    requires c.status.Open? && Conserves(FromClient, d) && Relay.Framed(FromClient, Order(p, c), d) && InOrder(d)
    requires Receive(FromClient, p, c, d, chunk).Some? && MildCut(Order(p, c), d.b.Pending(), chunk)
    ensures var d' := Receive(FromClient, p, c, d, chunk).value.d; d'.b.Valid() && Unechoing(d')
  {
    MildIsUncropped(p, c, d, chunk);
    EchoesExactly(p, c, d, chunk);
    LostMeansTorn(FromClient, p, c, d, chunk);
  }

  lemma PieceDoesNotEcho(p: Parser, id: nat, k: Link, chunk: seq<byte>)
    requires LinkHolds(p.host, id, k) && k.c.status.Open? && Receive(FromClient, p, k.c, k.client, chunk).Some?
    requires Unechoing(k.client) && MildCut(Order(p, k.c), Frames(FromClient, Order(p, k.c), Stream(k.client)).tail, chunk)
    ensures var m := Receive(FromClient, p, k.c, k.client, chunk).value; m.d.b.Valid() && Unechoing(m.d)
  {
    if InOrder(k.client) {
      DirIsFramed(FromClient, Order(p, k.c), k.client);
      InOrderDoesNotEcho(p, k.c, k.client, chunk);
    } else {
      StuckReceives(FromClient, p, k.c, k.client, chunk);
    }
  }

  lemma FlushDoesNotEcho(d: Dir)
    requires Conserves(FromClient, d) && Flush(d).Some? && Unechoing(d)
    ensures Flush(d).value.b.Valid() && Unechoing(Flush(d).value)
  {
    FlushStaysInOrder(FromClient, d);
  }

  /** Without such reads nothing is ever framed twice or cropped. */
  lemma {:induction false} NoShortCutsNoEcho(p0: Parser, actions: seq<Action>, w: World, id: nat)
    requires Fresh(p0) && ActAll(Begin(p0), actions) == Some(w) && OpenIn(w, id)
    requires NoShortCuts(OrderOf(p0.host, w.links[id].c.byteswap), w.links[id].client.cuts)
    ensures w.links[id].client.b.Valid() && Unechoing(w.links[id].client)
    decreases |actions|
  {
    var before, a := actions[..|actions| - 1], actions[|actions| - 1];
    ReachableHolds(p0, before);
    ReachableHolds(p0, actions);
    var v := ActAll(Begin(p0), before).value;
    var chunk := StepCases(p0, v, a, id, FromClient);
    var k, k' := v.links[id], w.links[id];
    assert LinkHolds(p0.host, id, k');
    if k.c.status.Open? {
      CutsBefore(v.p, id, k, k', chunk);
      NoShortCutsNoEcho(p0, before, v, id);
      EchoStep(v.p, id, k, k', chunk);
    } else {
      OpeningDoesNotEcho(v.p, id, k, k', chunk);
    }
  }

  lemma OpeningDoesNotEcho(p: Parser, id: nat, k: Link, k': Link, chunk: seq<byte>)
    requires LinkHolds(p.host, id, k) && k'.c.status.Open? && Opens(p, k, k', chunk)
    requires NoShortCuts(OrderOf(p.host, k'.c.byteswap), k'.client.cuts)
    ensures k'.client.b.Valid() && Unechoing(k'.client)
  {
    assert |k.client.b.Pending()| == k.client.b.Unparsed();
  }

  lemma CutsBefore(p: Parser, id: nat, k: Link, k': Link, chunk: seq<byte>)
    requires LinkHolds(p.host, id, k) && k.c.status.Open? && k'.c.status.Open?
    requires Untouched(k, k', FromClient) || OnePieceMore(p, k, k', FromClient, chunk)
    requires NoShortCuts(OrderOf(p.host, k'.c.byteswap), k'.client.cuts)
    ensures k'.c.byteswap == k.c.byteswap && NoShortCuts(OrderOf(p.host, k.c.byteswap), k.client.cuts)
    ensures k'.client.cuts == k.client.cuts || MildCut(Order(p, k.c), Frames(FromClient, Order(p, k.c), Stream(k.client)).tail, chunk)
  {
    if !Untouched(k, k', FromClient) {
      ReceiveFrames(FromClient, p, k.c, k.client, chunk);
      MoreShortCuts(OrderOf(p.host, k.c.byteswap), k.client.cuts, chunk);
    }
  }

  lemma EchoStep(p: Parser, id: nat, k: Link, k': Link, chunk: seq<byte>)
    requires LinkHolds(p.host, id, k) && k.c.status.Open? && Unechoing(k.client)
    requires Untouched(k, k', FromClient) || OnePieceMore(p, k, k', FromClient, chunk)
    requires k'.client.cuts == k.client.cuts || MildCut(Order(p, k.c), Frames(FromClient, Order(p, k.c), Stream(k.client)).tail, chunk)
    ensures k'.client.b.Valid() && Unechoing(k'.client)
  {
    if Untouched(k, k', FromClient) {
      if k'.client != k.client {
        FlushDoesNotEcho(k.client);
      }
    } else {
      ReceiveFrames(FromClient, p, k.c, k.client, chunk);
      PieceDoesNotEcho(p, id, k, chunk);
    }
  }

  /** Bytes of no known size behind parsed ones are there only as above, and no message is waited for that
      would end in front of an extended length. */
  predicate Sure(o: ByteOrder, d: Dir)
    requires d.b.Valid()
  {
    && (Stuck(d.b) && d.b.next.None? ==> Echoing(o, d.b))
    && (!Stuck(d.b) && d.b.next.Some? ==> d.b.next.value > 4)
  }

  /** The loop is about to read at least as much as makes it frame a parsed request again. */
  predicate AboutToEcho(o: ByteOrder, d: Dir, chunk: seq<byte>) { Echoing(o, d.b) && |d.b.Pending() + chunk| >= 4 }

  lemma ReadEchoes(p: Parser, id: nat, k: Link, chunk: seq<byte>)
    requires LinkHolds(p.host, id, k) && k.c.status.Open? && Receive(FromClient, p, k.c, k.client, chunk).Some?
    requires Sure(Order(p, k.c), k.client)
    ensures var d := Receive(FromClient, p, k.c, k.client, chunk).value.d;
      && d.b.Valid() && Sure(Order(p, k.c), d)
      && (d.echoed <==> k.client.echoed || AboutToEcho(Order(p, k.c), k.client, chunk))
  {
    ReceiveConserves(FromClient, p, k.c, k.client, chunk);
    if !Stuck(k.client.b) {
      SureBehindNothing(p, k.c, k.client, chunk);
    } else if k.client.b.next.Some? {
      StuckReceives(FromClient, p, k.c, k.client, chunk);
    } else {
      EchoAgainExactly(p, k.c, k.client, chunk);
      SureAgain(p, k.c, k.client, chunk);
    }
  }

  /** A request framed again has at least eight bytes parsed in the end. */
  lemma SureAgain(p: Parser, c: Conn, d: Dir, chunk: seq<byte>)
    requires c.status.Open? && Settled(d.b, HeaderOf(FromClient)) && Echoing(Order(p, c), d.b)
    requires Receive(FromClient, p, c, d, chunk).Some?
    ensures var d' := Receive(FromClient, p, c, d, chunk).value.d; d'.b.Valid() && Sure(Order(p, c), d')
  {
    var b := Filled(d.b, chunk).value;
    var c' := Refreshed(FromClient, c, b);
    var r := Pass(CLIENT_RULES, p, c', b, 0).value;
    EchoAgainExactly(p, c, d, chunk);
    ReceiveSettles(FromClient, p, c, d, chunk);
    FilledAppends(d.b, HeaderOf(FromClient), chunk);
    assert (d.log + r.log)[|d.log|..] == r.log;
    assert r.log != [] ==> |r.log[0].msg| == 4;
    SizeIsKnown(p, c', b, r);
    KnownIsSure(Order(p, c), r.b, r.log != []);
  }

  lemma KnownIsSure(o: ByteOrder, b: Buffer, logged: bool)
    requires Settled(b, HeaderOf(FromClient)) && b.parsed >= 4 && (logged && b.Unparsed() > 0 ==> b.next.Some?)
    requires !logged ==> b.next.Some?
    ensures Stuck(b) ==> b.next.Some?
    ensures !Stuck(b) ==> b.next.None?
  {
  }

  lemma SizeIsKnown(p: Parser, c: Conn, b: Buffer, r: Passed)
    requires c.status.Open? && b.Valid() && b.written == 0 && b.parsed == 4 && Pass(CLIENT_RULES, p, c, b, 0) == Some(r)
    requires r.log != [] ==> |r.log[0].msg| == 4
    ensures r.b.Valid() && r.b.parsed >= 4 && (r.log != [] && r.b.Unparsed() > 0 ==> r.b.next.Some?)
  {
    ClientTakes(p, c, b, 0, r);
    ClientEnds(p, c, b, 0, r);
    if r.log != [] && r.b.Unparsed() > 0 {
      assert Flatten(Msgs(r.log)) == r.log[0].msg + Flatten(Msgs(r.log)[1..]);
      KnownSize(r.p, r.c, r.b, |Flatten(Msgs(r.log))|);
    }
  }

  lemma KnownSize(p: Parser, c: Conn, b: Buffer, cur: nat)
    requires c.status.Open? && b.Valid() && b.written == 0 && b.Size() >= 8
    requires MeasureClient(p, c, b.(next := None), cur).Some?
    ensures MeasureClient(p, c, b.(next := None), cur).value.next.Some?
  {
  }

  /** Where something is cropped, the buffer holds eight bytes, or nothing is left in it. */
  lemma CroppedIsLong(p: Parser, c: Conn, b: Buffer, r: Passed)
    requires c.status.Open? && b.Valid() && b.written == b.parsed == 0 && Pass(CLIENT_RULES, p, c, b, 0) == Some(r)
    requires b.next.Some? ==> b.Unparsed() <= b.next.value
    requires !AllWellFormed(FromClient, Order(p, c), Msgs(r.log))
    ensures r.b.Valid() && (r.b.read >= 8 || r.b.Unparsed() == 0)
  {
    ClientTakes(p, c, b, 0, r);
    if b.next.None? {
      PassCrops(p, c, b, 0, r);
      CropsOrFrames(Order(p, c), b, Msgs(r.log), r.b.Pending());
    } else if b.Incomplete() {
      PassWaits(CLIENT_RULES, p, c, b, 0);
      assert false;
    } else if b.Unparsed() > 0 {
      FirstLogged(FromClient, p, c, b);
      assert Flatten(Msgs(r.log)) == r.log[0].msg + Flatten(Msgs(r.log)[1..]);
    }
  }

  /** With nothing parsed, what is waited for is more than four bytes. */
  lemma WaitsForMore(p: Parser, c: Conn, b: Buffer, r: Passed)
    requires c.status.Open? && b.Valid() && b.written == b.parsed == 0 && b.Unparsed() > 0
    requires Pass(CLIENT_RULES, p, c, b, 0) == Some(r) && Settled(r.b, HeaderOf(FromClient))
    requires b.next.Some? ==> b.next.value > 4
    ensures !Stuck(r.b) && r.b.next.Some? ==> r.b.next.value > 4
  {
    if !Stuck(r.b) && r.b.next.Some? {
      ClientTakes(p, c, b, 0, r);
      if r.log != [] {
        LoggedIsParsed(p, c, b, r);
        assert false;
      }
      PassNothing(CLIENT_RULES, p, c, b, 0);
    }
  }

  lemma LoggedIsParsed(p: Parser, c: Conn, b: Buffer, r: Passed)
    requires c.status.Open? && b.Valid() && b.written == b.parsed == 0 && Pass(CLIENT_RULES, p, c, b, 0) == Some(r) && r.log != []
    ensures r.b.parsed > 0
  {
    PassSplits(CLIENT_RULES, p, c, b, 0);
    SomethingIsParsed(b, r);
  }

  lemma SureBehindNothing(p: Parser, c: Conn, d: Dir, chunk: seq<byte>)
    requires c.status.Open? && Conserves(FromClient, d) && Sure(Order(p, c), d)
    requires !Stuck(d.b) && Receive(FromClient, p, c, d, chunk).Some?
    ensures var d' := Receive(FromClient, p, c, d, chunk).value.d; d'.b.Valid() && Sure(Order(p, c), d') && d'.echoed == d.echoed
  {
    var b := Filled(d.b, chunk).value;
    var c' := Refreshed(FromClient, c, b);
    var r := Pass(CLIENT_RULES, p, c', b, 0).value;
    FilledAppends(d.b, HeaderOf(FromClient), chunk);
    ReadsBehindNothing(d.b, HeaderOf(FromClient), chunk);
    ReceiveSettles(FromClient, p, c, d, chunk);
    WaitsForMore(p, c', b, r);
    if AllWellFormed(FromClient, Order(p, c), Msgs(r.log)) {
      PassEchoes(p, c', b, r, Framing(Msgs(r.log), r.b.Pending()));
    } else {
      TooShortToTell(p, c', b, r);
      CroppedIsLong(p, c', b, r);
    }
  }

  lemma SureAtOpening(o: ByteOrder, k: Link)
    requires Waiting(k) && Conserves(FromClient, k.client)
    ensures Sure(o, AtOpening(k.client))
  {
  }

  /** The step makes the relay frame something again. */
  predicate EchoesAt(host: ByteOrder, w: World, a: Action, id: nat) {
    && OpenIn(w, id) && a.Read? && a.id == id && a.side.FromClient?
    && AboutToEcho(OrderOf(host, w.links[id].c.byteswap), w.links[id].client, a.chunk)
  }

  /** The connection is open and its client's direction as it should be. */
  predicate OpenAndSure(host: ByteOrder, w: World, id: nat) {
    && OpenIn(w, id) && w.links[id].client.b.Valid()
    && Sure(OrderOf(host, w.links[id].c.byteswap), w.links[id].client)
  }

  /** A read from the client of a connection that is open then. */
  lemma ClientReadStep(p0: Parser, w: World, id: nat, chunk: seq<byte>)
    requires WorldHolds(p0, w) && Act(w, Read(id, FromClient, chunk)).Some? && OpenIn(Act(w, Read(id, FromClient, chunk)).value, id)
    ensures w.p.host == p0.host && OpenIn(w, id) && LinkHolds(p0.host, id, w.links[id])
    ensures var k, k' := w.links[id], Act(w, Read(id, FromClient, chunk)).value.links[id];
      Receive(FromClient, w.p, k.c, k.client, chunk).Some?
      && k'.client == Receive(FromClient, w.p, k.c, k.client, chunk).value.d && k'.c.byteswap == k.c.byteswap
  {
    assert id in w.links;
    var k := w.links[id];
    assert LinkHolds(p0.host, id, k);
    if k.c.status.Open? {
      OpenReadHolds(w.p, id, k, FromClient, chunk);
    } else {
      FirstReadHolds(w.p, id, k, chunk);
      assert false;
    }
  }

  lemma EchoedStep(p0: Parser, w: World, a: Action, id: nat)
    requires WorldHolds(p0, w) && Act(w, a).Some? && OpenIn(Act(w, a).value, id)
    requires OpenIn(w, id) ==> OpenAndSure(p0.host, w, id)
    ensures var w' := Act(w, a).value;
      && OpenAndSure(p0.host, w', id)
      && (w'.links[id].client.echoed <==> (OpenIn(w, id) && w.links[id].client.echoed) || EchoesAt(p0.host, w, a, id))
  {
    if a.Read? && a.id == id && a.side.FromClient? {
      ClientReadStep(p0, w, id, a.chunk);
      ReadEchoes(w.p, id, w.links[id], a.chunk);
    } else {
      var chunk := StepCases(p0, w, a, id, FromClient);
      OtherStepEchoes(p0.host, w, a, id);
    }
  }

  /** What is not a read from the client leaves its buffer alone, or drains it. */
  predicate ClientUnread(k: Link, k': Link)
    requires k.client.b.Valid()
  {
    && k'.c.byteswap == k.c.byteswap
    && if !k.c.status.Open? then k'.client == AtOpening(k.client)
       else k'.client == k.client || Flush(k.client) == Some(k'.client)
  }

  lemma UnreadStep(host: ByteOrder, w: World, a: Action, id: nat)
    requires id in w.links && id in w.used && LinkHolds(host, id, w.links[id]) && w.p.host == host
    requires Act(w, a).Some? && OpenIn(Act(w, a).value, id) && !(a.Read? && a.id == id && a.side.FromClient?)
    ensures ClientUnread(w.links[id], Act(w, a).value.links[id])
  {
    var k, k' := w.links[id], Act(w, a).value.links[id];
    if a.Read? && a.id == id {
      ServerReadOnly(w.p, id, k, a.chunk);
    } else if a.Write? && a.id == id {
      assert k'.c == k.c && (k'.client == k.client || Flush(k.client) == Some(k'.client));
    } else {
      assert k' == k;
    }
  }

  lemma ServerReadOnly(p: Parser, id: nat, k: Link, chunk: seq<byte>)
    requires LinkHolds(p.host, id, k) && Receive(FromServer, p, k.c, k.server, chunk).Some?
    requires AfterRead(k, FromServer, Receive(FromServer, p, k.c, k.server, chunk).value).c.status.Open?
    ensures ClientUnread(k, AfterRead(k, FromServer, Receive(FromServer, p, k.c, k.server, chunk).value))
  {
    if k.c.status.Open? {
      OpenReadHolds(p, id, k, FromServer, chunk);
    } else {
      AnswerHolds(p, id, k, chunk);
    }
  }

  lemma UnreadIsSure(host: ByteOrder, id: nat, k: Link, k': Link)
    requires LinkHolds(host, id, k) && ClientUnread(k, k')
    requires k.c.status.Open? ==> Sure(OrderOf(host, k.c.byteswap), k.client)
    ensures k'.client.b.Valid() && Sure(OrderOf(host, k'.c.byteswap), k'.client)
    ensures k'.client.echoed == k.client.echoed && k'.client.cropped == k.client.cropped
  {
    if !k.c.status.Open? {
      SureAtOpening(OrderOf(host, k'.c.byteswap), k);
    } else if k'.client != k.client {
      FlushConserves(FromClient, k.client);
    }
  }

  /** What is not a read from the client echoes nothing. */
  lemma OtherStepEchoes(host: ByteOrder, w: World, a: Action, id: nat)
    requires id in w.links && id in w.used && LinkHolds(host, id, w.links[id]) && w.p.host == host
    requires Act(w, a).Some? && OpenIn(Act(w, a).value, id) && !(a.Read? && a.id == id && a.side.FromClient?)
    requires OpenIn(w, id) ==> OpenAndSure(host, w, id)
    ensures var w' := Act(w, a).value;
      OpenAndSure(host, w', id) && (w'.links[id].client.echoed <==> OpenIn(w, id) && w.links[id].client.echoed)
  {
    UnreadStep(host, w, a, id);
    UnreadIsSure(host, id, w.links[id], Act(w, a).value.links[id]);
  }

  /** Something about to happen in a run. */
  type Moment = (World, Action) -> bool

  /** It has happened. */
  ghost predicate Happened(p0: Parser, actions: seq<Action>, moment: Moment) {
    exists i: nat :: i < |actions| && HappensAt(p0, actions, i, moment)
  }

  predicate HappensAt(p0: Parser, actions: seq<Action>, i: nat, moment: Moment)
    requires i < |actions|
  {
    var w := ActAll(Begin(p0), actions[..i]);
    w.Some? && moment(w.value, actions[i])
  }

  lemma HappenedOneMore(p0: Parser, actions: seq<Action>, moment: Moment)
    requires actions != []
    ensures var last := |actions| - 1;
      Happened(p0, actions, moment) <==> Happened(p0, actions[..last], moment) || HappensAt(p0, actions, last, moment)
  {
    var last := |actions| - 1;
    var before := actions[..last];
    forall i: nat | i < last ensures before[..i] == actions[..i] && before[i] == actions[i] {}
    if Happened(p0, before, moment) {
      var i: nat :| i < last && HappensAt(p0, before, i, moment);
      assert HappensAt(p0, actions, i, moment);
    }
    if Happened(p0, actions, moment) {
      var i: nat :| i < |actions| && HappensAt(p0, actions, i, moment);
      assert i < last ==> HappensAt(p0, before, i, moment);
    }
  }

  /** It only happens while connection `id` is open. */
  ghost predicate OnlyWhenOpen(id: nat, moment: Moment) { forall w, a :: moment(w, a) ==> OpenIn(w, id) }

  /** Nothing has happened before its connection is open. */
  lemma {:induction false} NothingHappenedYet(p0: Parser, actions: seq<Action>, id: nat, moment: Moment)
    requires Fresh(p0) && ActAll(Begin(p0), actions).Some? && OnlyWhenOpen(id, moment)
    requires var w := ActAll(Begin(p0), actions).value; if id in w.links then !w.links[id].c.status.Open? else id !in w.used
    ensures !Happened(p0, actions, moment)
    decreases |actions|
  {
    if actions != [] {
      var before, a := actions[..|actions| - 1], actions[|actions| - 1];
      ReachableHolds(p0, before);
      WasNotOpen(p0, ActAll(Begin(p0), before).value, a, id);
      NothingHappenedYet(p0, before, id, moment);
      HappenedOneMore(p0, actions, moment);
    }
  }

  function Echo(host: ByteOrder, id: nat): Moment { (w, a) => EchoesAt(host, w, a, id) }

  /** Over whole runs: something has been framed twice on a connection if and only if some read found one
      parsed request of one unit with bytes of no known size behind it, and made them at least four. */
  lemma {:induction false} EchoedExactly(p0: Parser, actions: seq<Action>, w: World, id: nat)
    requires Fresh(p0) && ActAll(Begin(p0), actions) == Some(w) && OpenIn(w, id)
    ensures OpenAndSure(p0.host, w, id)
    ensures w.links[id].client.echoed <==> Happened(p0, actions, Echo(p0.host, id))
    decreases |actions|
  {
    var last := |actions| - 1;
    var before, a := actions[..last], actions[last];
    ReachableHolds(p0, before);
    var v := ActAll(Begin(p0), before).value;
    var chunk := StepCases(p0, v, a, id, FromClient);
    if OpenIn(v, id) {
      EchoedExactly(p0, before, v, id);
    } else {
      NothingHappenedYet(p0, before, id, Echo(p0.host, id));
    }
    EchoedStep(p0, v, a, id);
    HappenedOneMore(p0, actions, Echo(p0.host, id));
  }
}
