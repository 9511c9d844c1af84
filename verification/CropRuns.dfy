/**
 When a request is logged that ends in front of its own length: over whole runs, and in concrete ones.
 */
module CropRuns {
  import opened Bytes
  import opened SocketBuffers
  import opened Wire
  import opened Tracking
  import opened Histories
  import opened MessageLoops
  import opened Passes
  import opened LoopRules
  import opened Crops
  import opened Relay
  import opened Worlds
  import opened WorldRuns
  import opened Cuts
  import opened Echo

  // ---- read by read ----

  /** The loop is about to crop a request: the next read shows it one of extended length one behind the whole
      messages that it frames. It frames what is pending, unless it starts over. */
  predicate AboutToCrop(o: ByteOrder, d: Dir, chunk: seq<byte>)
    requires d.b.Valid()
  {
    var filled := Filled(d.b, chunk);
    && filled.Some? && filled.value.Valid()
    && if Stuck(d.b) then
         AboutToEcho(o, d, chunk) && EndsInItsHeader(FromClient, o, Frames(FromClient, o, d.b.Data() + chunk).tail)
       else
         Genuine(FromClient, o, d.b) && CropsAt(o, filled.value, Frames(FromClient, o, d.b.Pending() + chunk))
  }

  /** Under a wrong size one message is logged, which is long enough, or none. */
  lemma WrongSizeCropsNothing(p: Parser, c: Conn, d: Dir, chunk: seq<byte>)
    requires c.status.Open? && Settled(d.b, HeaderOf(FromClient)) && !Stuck(d.b) && d.b.next.Some? && d.b.next.value > 4
    requires Receive(FromClient, p, c, d, chunk).Some?
    ensures Receive(FromClient, p, c, d, chunk).value.d.cropped == d.cropped
  {
    var b := Filled(d.b, chunk).value;
    var c' := Refreshed(FromClient, c, b);
    FilledAppends(d.b, HeaderOf(FromClient), chunk);
    ReadsBehindNothing(d.b, HeaderOf(FromClient), chunk);
    PassKeeps(FromClient, p, c', b, 0);
    if b.Incomplete() {
      PassWaits(CLIENT_RULES, p, c', b, 0);
    } else {
      OnlyOne(p, c', b);
    }
  }

  lemma {:induction false} AllLong(o: ByteOrder, msgs: seq<seq<byte>>)
    requires AllFit(FromClient, o, msgs)
    ensures |Flatten(msgs)| >= 4 * |msgs|
  {
    if msgs != [] {
      assert WellFormed(FromClient, o, msgs[0]) || Cropped(FromClient, o, msgs[0]);
      forall i | 0 <= i < |msgs| - 1 ensures msgs[1..][i] == msgs[i + 1] {}
      AllLong(o, msgs[1..]);
    }
  }

  lemma OnlyOne(p: Parser, c: Conn, b: Buffer)
    requires c.status.Open? && b.Valid() && b.written == b.parsed == 0 && b.next.Some? && b.Unparsed() == b.next.value > 4
    requires Pass(CLIENT_RULES, p, c, b, 0).Some?
    ensures AllWellFormed(FromClient, Order(p, c), Msgs(Pass(CLIENT_RULES, p, c, b, 0).value.log))
  {
    var r := Pass(CLIENT_RULES, p, c, b, 0).value;
    var msgs := Msgs(r.log);
    FirstLogged(FromClient, p, c, b);
    ClientTakes(p, c, b, 0, r);
    PassKeeps(FromClient, p, c, b, 0);
    assert Flatten(msgs) == msgs[0] + Flatten(msgs[1..]);
    AllLong(Order(p, c), msgs[1..]);
    assert WellFormed(FromClient, Order(p, c), msgs[0]);
  }

  /** A read that frames a request again goes on to the end of what is held. */
  lemma EchoCrops(p: Parser, c: Conn, d: Dir, chunk: seq<byte>)
    requires c.status.Open? && Settled(d.b, HeaderOf(FromClient)) && Echoing(Order(p, c), d.b)
    requires Receive(FromClient, p, c, d, chunk).Some? && |d.b.Pending() + chunk| >= 4
    ensures var t := Frames(FromClient, Order(p, c), d.b.Data() + chunk).tail;
      Receive(FromClient, p, c, d, chunk).value.d.cropped <==> d.cropped || EndsInItsHeader(FromClient, Order(p, c), t)
  {
    var b := Filled(d.b, chunk).value;
    var c' := Refreshed(FromClient, c, b);
    FilledAppends(d.b, HeaderOf(FromClient), chunk);
    PassKeeps(FromClient, p, c', b, 0);
    var r := Pass(CLIENT_RULES, p, c', b, 0).value;
    assert b.Data() == b.store[..b.read];
    if AllWellFormed(FromClient, Order(p, c), Msgs(r.log)) {
      FramedToTheEnd(p, c', b, r);
    } else {
      CroppedAgain(p, c', b, r);
    }
  }

  /** ... so it would have come upon a request of extended length one. */
  lemma FramedToTheEnd(p: Parser, c: Conn, b: Buffer, r: Passed)
    requires c.status.Open? && b.Valid() && b.written == 0 && b.parsed == 4 && b.next.None? && b.Unparsed() > 0
    requires Pass(CLIENT_RULES, p, c, b, 0) == Some(r) && AllWellFormed(FromClient, Order(p, c), Msgs(r.log))
    ensures !EndsInItsHeader(FromClient, Order(p, c), Frames(FromClient, Order(p, c), b.store[..b.read]).tail)
  {
    ClientTakes(p, c, b, 0, r);
    ClientEnds(p, c, b, 0, r);
    LoggedAgain(r.p, r.c, b, r.b, Msgs(r.log));
    EndsBefore(r.p, r.c, r.b, Msgs(r.log));
  }

  lemma EndsBefore(p: Parser, c: Conn, b: Buffer, again: seq<seq<byte>>)
    requires c.status.Open? && b.Valid() && b.written == 0 && b.parsed == |Flatten(again)| + 4
    requires b.Unparsed() > 0 ==> b.Incomplete() && LastMeasured(CLIENT_RULES, p, c, b, |Flatten(again)|)
    requires LoggedFrom(Frames(FromClient, Order(p, c), b.store[..b.read]), again, b.read, b.parsed)
    ensures !EndsInItsHeader(FromClient, Order(p, c), Frames(FromClient, Order(p, c), b.store[..b.read]).tail)
  {
    var o, s := Order(p, c), b.store[..b.read];
    var f := Frames(FromClient, o, s);
    FramesPartition(FromClient, o, s);
    if EndsInItsHeader(FromClient, o, f.tail) {
      AllFramed(f, again, |s|);
      var n := |Flatten(again)|;
      assert f.tail == s[n..] == b.store[n..b.read];
      MeasuresOne(p, c, b, n, f.tail);
      assert false;
    }
  }

  lemma AllFramed(f: Framing, again: seq<seq<byte>>, n: nat)
    requires n == |Flatten(f.msgs)| + |f.tail| && |f.tail| >= 8
    requires |again| <= |f.msgs| && again == f.msgs[..|again|]
    requires |again| < |f.msgs| ==> |Flatten(f.msgs[..|again| + 1])| + 4 > n
    ensures again == f.msgs
  {
    if |again| < |f.msgs| {
      var j := |again| + 1;
      assert f.msgs == f.msgs[..j] + f.msgs[j..];
      FlattenAppend(f.msgs[..j], f.msgs[j..]);
    }
  }

  lemma MeasuresOne(p: Parser, c: Conn, b: Buffer, cur: nat, t: seq<byte>)
    requires c.status.Open? && b.Valid() && b.written == 0 && b.read >= cur + 8 && t == b.store[cur..b.read]
    requires EndsInItsHeader(FromClient, Order(p, c), t) && MeasureClient(p, c, b.(next := None), cur).Some?
    ensures MeasureClient(p, c, b.(next := None), cur) == Some(Measured(c, Some(4)))
  {
    assert forall j :: 0 <= j < 8 ==> t[j] == b.store[cur + j];
    OrderedAt(p.host, c.byteswap, b.store, cur + 4);
  }

  lemma ReadCrops(p: Parser, id: nat, k: Link, chunk: seq<byte>)
    requires LinkHolds(p.host, id, k) && k.c.status.Open? && Receive(FromClient, p, k.c, k.client, chunk).Some?
    requires Sure(Order(p, k.c), k.client)
    ensures Receive(FromClient, p, k.c, k.client, chunk).value.d.cropped
      <==> k.client.cropped || AboutToCrop(Order(p, k.c), k.client, chunk)
  {
    var o, d := Order(p, k.c), k.client;
    FilledAppends(d.b, HeaderOf(FromClient), chunk);
    if !Stuck(d.b) {
      if Genuine(FromClient, o, d.b) {
        CropsExactly(p, k.c, d, chunk);
      } else {
        WrongSizeCropsNothing(p, k.c, d, chunk);
      }
    } else if d.b.next.Some? {
      StuckReceives(FromClient, p, k.c, d, chunk);
    } else {
      EchoAgainExactly(p, k.c, d, chunk);
      if |d.b.Pending() + chunk| >= 4 {
        EchoCrops(p, k.c, d, chunk);
      } else {
        NothingLogged(p, k.c, d, chunk);
      }
    }
  }

  lemma NothingLogged(p: Parser, c: Conn, d: Dir, chunk: seq<byte>)
    requires c.status.Open? && d.b.Valid() && Receive(FromClient, p, c, d, chunk).Some?
    requires Receive(FromClient, p, c, d, chunk).value.d.log[|d.log|..] == []
    ensures Receive(FromClient, p, c, d, chunk).value.d.cropped == d.cropped
  {
    var b := Filled(d.b, chunk).value;
    var r := Pass(CLIENT_RULES, p, Refreshed(FromClient, c, b), b, b.written).value;
    assert (d.log + r.log)[|d.log|..] == r.log;
  }

  // ---- whole runs ----

  predicate CropsNow(host: ByteOrder, w: World, a: Action, id: nat) {
    && OpenAndSure(host, w, id) && a.Read? && a.id == id && a.side.FromClient?
    && AboutToCrop(OrderOf(host, w.links[id].c.byteswap), w.links[id].client, a.chunk)
  }

  function Crop(host: ByteOrder, id: nat): Moment { (w, a) => CropsNow(host, w, a, id) }

  lemma CroppedStep(p0: Parser, w: World, a: Action, id: nat)
    requires WorldHolds(p0, w) && Act(w, a).Some? && OpenIn(Act(w, a).value, id)
    requires OpenIn(w, id) ==> OpenAndSure(p0.host, w, id)
    ensures Act(w, a).value.links[id].client.cropped
      <==> (OpenIn(w, id) && w.links[id].client.cropped) || CropsNow(p0.host, w, a, id)
  {
    if a.Read? && a.id == id && a.side.FromClient? {
      ClientReadStep(p0, w, id, a.chunk);
      ReadCrops(w.p, id, w.links[id], a.chunk);
    } else {
      var chunk := StepCases(p0, w, a, id, FromClient);
      UnreadStep(p0.host, w, a, id);
      UnreadIsSure(p0.host, id, w.links[id], Act(w, a).value.links[id]);
    }
  }

  /** Over whole runs: a request without its own length has been logged on a connection if and only if some
      read was about to crop one. */
  lemma {:induction false} CroppedExactly(p0: Parser, actions: seq<Action>, w: World, id: nat)
    requires Fresh(p0) && ActAll(Begin(p0), actions) == Some(w) && OpenIn(w, id)
    ensures w.links[id].client.cropped <==> Happened(p0, actions, Crop(p0.host, id))
    decreases |actions|
  {
    var last := |actions| - 1;
    var before, a := actions[..last], actions[last];
    ReachableHolds(p0, before);
    var v := ActAll(Begin(p0), before).value;
    var chunk := StepCases(p0, v, a, id, FromClient);
    if OpenIn(v, id) {
      CroppedExactly(p0, before, v, id);
      EchoedExactly(p0, before, v, id);
    } else {
      NothingHappenedYet(p0, before, id, Crop(p0.host, id));
    }
    CroppedStep(p0, v, a, id);
    HappenedOneMore(p0, actions, Crop(p0.host, id));
  }

  // ---- concrete ones ----

  /** NoOperation of extended length one, and a QueryExtension request for "X", in either byte order. */
  function NoOpOfOne(o: ByteOrder): seq<byte> { [NO_OPERATION, 0, 0, 0] + Enc32(o, 1) }

  const QUERY_AFTER: seq<byte> := [QUERY_EXTENSION, 0, 0, 3, 0, 1, 0, 0, 88, 0, 0, 0]
  const SPLIT: seq<byte> := [0, 0, 0, 1]
  /** The reply to the client's second request: present. */
  const PRESENT: seq<byte> := [1, 0, 0, 2, 0, 0, 0, 0, 1, 130] + seq(22, _ => 0)

  predicate Extended(p: Parser, c: Conn) { !c.byteswap && c.status.Open? && c.Enabled(BIG_REQUESTS) }

  lemma OneIsNoSize(o: ByteOrder)
    ensures var s := NoOpOfOne(o); U16(o, s, 2) == 0 && U32(o, s, 4) == 1 && Frames(FromClient, o, s) == Framing([], s)
  {
    var s := NoOpOfOne(o);
    assert U32(o, s, 4) == U32(o, s[4..8], 0) == U32(o, Enc32(o, 1), 0);
  }

  lemma SameThere(o: ByteOrder, s: seq<byte>, cur: nat, m: seq<byte>, i: nat)
    requires Contains(s, cur, m)
    ensures i + 2 <= |m| ==> U16(o, s, cur + i) == U16(o, m, i)
    ensures i + 4 <= |m| ==> U32(o, s, cur + i) == U32(o, m, i)
  {
    assert forall j :: 0 <= j < |m| ==> s[cur + j] == m[j];
  }

  /** One turn of a loop, from what it measures and what logging does. */
  lemma TurnOf(rules: Rules, p: Parser, c: Conn, b: Buffer, cur: nat, m: seq<byte>, l: Logged)
    requires b.Valid() && b.next.None? && cur <= b.written + b.parsed && 0 < |m| <= b.Unparsed() && Contains(b.store, cur, m)
    requires rules.measure(p, c, b, cur) == Some(Measured(c, Some(|m|)))
    requires rules.handle(p, c, m, cur) == Some(l) && l.out == m
    ensures NextTurn(rules, p, c, b, cur) == Some(Turn(l.p, l.c, b.(parsed := b.parsed + |m|), Some(Entry(m, m, cur))))
  {
    assert Patched(b.store, cur, m) == b.store;
  }

  /** ... and the loop after it. */
  lemma TurnThen(rules: Rules, p: Parser, c: Conn, b: Buffer, cur: nat, t: Turn, rest: Passed)
    requires b.Valid() && cur <= b.written + b.parsed && b.Unparsed() > 0
    requires NextTurn(rules, p, c, b, cur) == Some(t) && t.logged.Some?
    requires t.b.Valid() && cur + |t.logged.value.msg| <= t.b.written + t.b.parsed
    requires Pass(rules, t.p, t.c, t.b, cur + |t.logged.value.msg|) == Some(rest)
    ensures Pass(rules, p, c, b, cur) == Some(rest.(log := [t.logged.value] + rest.log))
  {
    PassTurns(rules, p, c, b, cur);
  }

  lemma MeasuresCropped(p: Parser, c: Conn, b: Buffer, cur: nat)
    requires !c.byteswap && c.status.Open? && b.Valid() && b.Size() >= 8 && Contains(b.store, cur, NoOpOfOne(p.host))
    ensures MeasureClient(p, c, b, cur) == Some(Measured(c, Some(4)))
  {
    OneIsNoSize(p.host);
    SameThere(p.host, b.store, cur, NoOpOfOne(p.host), 2);
    SameThere(p.host, b.store, cur, NoOpOfOne(p.host), 4);
  }

  lemma LogsNoOp(p: Parser, c: Conn, cur: nat)
    requires Extended(p, c) && Contains(c.mem, cur, NoOpOfOne(p.host))
    ensures var m := NoOpOfOne(p.host)[..4]; HandleClient(p, c, m, cur) == Some(Logged(p, Register(c, NO_OPERATION), m))
  {
    var one := NoOpOfOne(p.host);
    OneIsNoSize(p.host);
    SameThere(p.host, c.mem, cur, one, 4);
    assert U16(p.host, one[..4], 2) == 0;
  }

  /** The loop at such a request: it takes four bytes for it. */
  lemma TakesCropped(p: Parser, c: Conn, b: Buffer, cur: nat)
    requires Extended(p, c) && c.mem == b.store && b.Valid() && b.next.None? && cur <= b.written + b.parsed
    requires b.Size() >= 8 && b.Unparsed() >= 4 && Contains(b.store, cur, NoOpOfOne(p.host))
    ensures var m := NoOpOfOne(p.host)[..4];
      NextTurn(CLIENT_RULES, p, c, b, cur) == Some(Turn(p, Register(c, NO_OPERATION), b.(parsed := b.parsed + 4), Some(Entry(m, m, cur))))
  {
    var m := NoOpOfOne(p.host)[..4];
    TakeOfSlice(b.store, cur, cur + 8, 4);
    MeasuresCropped(p, c, b, cur);
    LogsNoOp(p, c, cur);
    TurnOf(CLIENT_RULES, p, c, b, cur, m, Logged(p, Register(c, NO_OPERATION), m));
  }

  function AfterOpening(chunk: seq<byte>): Buffer
    requires |chunk| <= BLOCK_SZ
  {
    Append(AtOpening(NewDir()).b, chunk, BLOCK_SZ)
  }

  lemma ReadAtOpening(chunk: seq<byte>)
    requires 0 < |chunk| <= BLOCK_SZ
    ensures var b := AfterOpening(chunk);
      && AtOpening(NewDir()).b.Valid() && Filled(AtOpening(NewDir()).b, chunk) == Some(b)
      && b.Valid() && b.written == b.parsed == 0 && b.read == |chunk| && b.next.None? && |b.store| == BLOCK_SZ
      && Contains(b.store, 0, chunk)
  {
  }

  /** An extended length of one: the stream has no message there, but the loop measures four bytes and logs
      them. Where it goes on from is the length itself. */
  lemma LengthOfOneIsLogged(p: Parser, c: Conn, b: Buffer)
    requires Extended(p, c) && c.mem == b.store && b.Valid() && b.next.None?
    requires b.written == b.parsed == 0 && b.Pending() == NoOpOfOne(p.host)
    ensures Frames(FromClient, p.host, b.Pending()) == Framing([], b.Pending()) && MeasureClient(p, c, b, 0) == Some(Measured(c, Some(4)))
    ensures var m := [NO_OPERATION, 0, 0, 0];
      NextTurn(CLIENT_RULES, p, c, b, 0) == Some(Turn(p, Register(c, NO_OPERATION), b.(parsed := 4), Some(Entry(m, m, 0))))
  {
    OneIsNoSize(p.host);
    MeasuresCropped(p, c, b, 0);
    TakesCropped(p, c, b, 0);
    assert NoOpOfOne(p.host)[..4] == [NO_OPERATION, 0, 0, 0];
  }

  lemma MeasuresShort(p: Parser, c: Conn, b: Buffer, cur: nat, m: seq<byte>)
    requires !c.byteswap && c.status.Open? && b.Valid() && b.Size() >= 4 && Contains(b.store, cur, m) && |m| >= 4
    requires U16(p.host, m, 2) != 0 && ALIGN * U16(p.host, m, 2) == |m|
    ensures MeasureClient(p, c, b, cur) == Some(Measured(c, Some(|m|)))
  {
    SameThere(p.host, b.store, cur, m, 2);
  }

  /** Behind it, on a host that has the high byte first, the loop takes the length for a request of one unit. */
  lemma TakesSplit(p: Parser, c: Conn, b: Buffer, cur: nat)
    requires p.host == MsbFirst && !c.byteswap && c.status.Open? && b.Valid() && b.next.None? && cur <= b.written + b.parsed
    requires b.Unparsed() >= 4 && Contains(b.store, cur, SPLIT)
    ensures NextTurn(CLIENT_RULES, p, c, b, cur)
      == Some(Turn(p, Register(c, 0), b.(parsed := b.parsed + 4), Some(Entry(SPLIT, SPLIT, cur))))
  {
    assert U16(MsbFirst, SPLIT, 2) == 1;
    MeasuresShort(p, c, b, cur, SPLIT);
    assert HandleClient(p, c, SPLIT, cur) == Some(Logged(p, Register(c, 0), SPLIT));
    TurnOf(CLIENT_RULES, p, c, b, cur, SPLIT, Logged(p, Register(c, 0), SPLIT));
  }

  /** The view that the query leaves. */
  function Queried(p: Parser, c: Conn, cur: nat): Parser {
    p.(stash := map[(c.id, Next(c.sequence)) := Slice(|c.mem|, cur + 8, 1)])
  }

  lemma LogsQuery(p: Parser, c: Conn, cur: nat)
    requires p.host == MsbFirst && !c.byteswap && c.status.Open? && p.stash == map[]
    ensures HandleClient(p, c, QUERY_AFTER, cur) == Some(Logged(Queried(p, c, cur), Register(c, QUERY_EXTENSION), QUERY_AFTER))
  {
    assert U16(MsbFirst, QUERY_AFTER, 2) == 3 && U16(MsbFirst, QUERY_AFTER, 4) == 1;
  }

  lemma TakesQueryAfter(p: Parser, c: Conn, b: Buffer, cur: nat)
    requires p.host == MsbFirst && !c.byteswap && c.status.Open? && p.stash == map[]
    requires b.Valid() && b.next.None? && cur <= b.written + b.parsed && b.Unparsed() >= 12 && Contains(b.store, cur, QUERY_AFTER)
    ensures NextTurn(CLIENT_RULES, p, c, b, cur)
      == Some(Turn(Queried(p, c, cur), Register(c, QUERY_EXTENSION), b.(parsed := b.parsed + 12),
                   Some(Entry(QUERY_AFTER, QUERY_AFTER, cur))))
  {
    assert U16(MsbFirst, QUERY_AFTER, 2) == 3;
    MeasuresShort(p, c, b, cur, QUERY_AFTER);
    LogsQuery(p, c, cur);
    TurnOf(CLIENT_RULES, p, c, b, cur, QUERY_AFTER, Logged(Queried(p, c, cur), Register(c, QUERY_EXTENSION), QUERY_AFTER));
  }

  /** Two turns that take all there is. */
  lemma TwoTurns(rules: Rules, p: Parser, c: Conn, b: Buffer, cur: nat, two: Turn, three: Turn)
    requires b.Valid() && b.written == 0 && cur == b.parsed && b.Unparsed() > 0
    requires NextTurn(rules, p, c, b, cur) == Some(two) && two.logged.Some? && two.b == b.(parsed := cur + |two.logged.value.msg|)
    requires two.b.Valid() && two.b.Unparsed() > 0 && NextTurn(rules, two.p, two.c, two.b, two.b.parsed) == Some(three)
    requires three.logged.Some? && three.b == b.(parsed := two.b.parsed + |three.logged.value.msg|)
    requires three.b.Valid() && three.b.Unparsed() == 0
    ensures Pass(rules, p, c, b, cur) == Some(Passed(three.p, three.c, three.b, [two.logged.value, three.logged.value]))
  {
    var e2, e3 := two.logged.value, three.logged.value;
    TurnThen(rules, two.p, two.c, two.b, two.b.parsed, three, Passed(three.p, three.c, three.b, []));
    TurnThen(rules, p, c, b, cur, two, Passed(three.p, three.c, three.b, [e3] + []));
    assert [e2] + ([e3] + []) == [e2, e3];
  }

  /** Three of them. */
  lemma ThreeTurns(rules: Rules, p: Parser, c: Conn, b: Buffer, one: Turn, two: Turn, three: Turn)
    requires b.Valid() && b.written == b.parsed == 0 && b.Unparsed() > 0
    requires NextTurn(rules, p, c, b, 0) == Some(one) && one.logged.Some? && one.b == b.(parsed := |one.logged.value.msg|)
    requires one.b.Valid() && one.b.Unparsed() > 0 && NextTurn(rules, one.p, one.c, one.b, one.b.parsed) == Some(two)
    requires two.logged.Some? && two.b == b.(parsed := one.b.parsed + |two.logged.value.msg|)
    requires two.b.Valid() && two.b.Unparsed() > 0 && NextTurn(rules, two.p, two.c, two.b, two.b.parsed) == Some(three)
    requires three.logged.Some? && three.b == b.(parsed := two.b.parsed + |three.logged.value.msg|)
    requires three.b.Valid() && three.b.Unparsed() == 0
    ensures Pass(rules, p, c, b, 0)
      == Some(Passed(three.p, three.c, three.b, [one.logged.value, two.logged.value, three.logged.value]))
  {
    var e1, e2, e3 := one.logged.value, two.logged.value, three.logged.value;
    TwoTurns(rules, one.p, one.c, one.b, one.b.parsed, two, three);
    TurnThen(rules, p, c, b, 0, one, Passed(three.p, three.c, three.b, [e2, e3]));
    assert [e1] + [e2, e3] == [e1, e2, e3];
  }

  lemma LogOfThree(p: Parser, c: Conn, b: Buffer) returns (one: Turn, two: Turn, three: Turn)
    requires p.host == MsbFirst && Extended(p, c) && c.mem == b.store && p.stash == map[]
    requires b.Valid() && b.written == b.parsed == 0 && b.read == 20 && b.next.None?
    requires Contains(b.store, 0, NoOpOfOne(MsbFirst)) && Contains(b.store, 4, SPLIT) && Contains(b.store, 8, QUERY_AFTER)
    ensures var c1 := Register(c, NO_OPERATION); var c2 := Register(c1, 0); var m := NoOpOfOne(MsbFirst)[..4];
      && one == Turn(p, c1, b.(parsed := 4), Some(Entry(m, m, 0)))
      && two == Turn(p, c2, b.(parsed := 8), Some(Entry(SPLIT, SPLIT, 4)))
      && three == Turn(Queried(p, c2, 8), Register(c2, QUERY_EXTENSION), b.(parsed := 20), Some(Entry(QUERY_AFTER, QUERY_AFTER, 8)))
      && NextTurn(CLIENT_RULES, p, c, b, 0) == Some(one)
      && NextTurn(CLIENT_RULES, p, c1, b.(parsed := 4), 4) == Some(two)
      && NextTurn(CLIENT_RULES, p, c2, b.(parsed := 8), 8) == Some(three)
  {
    var m, c1 := NoOpOfOne(MsbFirst)[..4], Register(c, NO_OPERATION);
    var c2 := Register(c1, 0);
    TakesCropped(p, c, b, 0);
    TakesSplit(p, c1, b.(parsed := 4), 4);
    TakesQueryAfter(p, c2, b.(parsed := 8), 8);
    one, two := Turn(p, c1, b.(parsed := 4), Some(Entry(m, m, 0))), Turn(p, c2, b.(parsed := 8), Some(Entry(SPLIT, SPLIT, 4)));
    three := Turn(Queried(p, c2, 8), Register(c2, QUERY_EXTENSION), b.(parsed := 20), Some(Entry(QUERY_AFTER, QUERY_AFTER, 8)));
  }

  lemma PassOfThree(p: Parser, c: Conn, b: Buffer)
    requires p.host == MsbFirst && Extended(p, c) && c.mem == b.store && p.stash == map[]
    requires b.Valid() && b.written == b.parsed == 0 && b.read == 20 && b.next.None?
    requires Contains(b.store, 0, NoOpOfOne(MsbFirst)) && Contains(b.store, 4, SPLIT) && Contains(b.store, 8, QUERY_AFTER)
    ensures Pass(CLIENT_RULES, p, c, b, 0).Some?
    ensures var r := Pass(CLIENT_RULES, p, c, b, 0).value;
      && r.p == p.(stash := r.p.stash) && r.b == b.(parsed := 20)
      && r.c == Register(Register(Register(c, NO_OPERATION), 0), QUERY_EXTENSION)
      && Msgs(r.log) == [NoOpOfOne(MsbFirst)[..4], SPLIT, QUERY_AFTER]
  {
    var one, two, three := LogOfThree(p, c, b);
    ThreeTurns(CLIENT_RULES, p, c, b, one, two, three);
    MsgsOfThree(one.logged.value, two.logged.value, three.logged.value);
  }

  lemma MsgsOfThree(e1: Entry, e2: Entry, e3: Entry)
    ensures Msgs([e1, e2, e3]) == [e1.msg, e2.msg, e3.msg]
  {
  }

  lemma PiecesAreThere(b: Buffer)
    requires Contains(b.store, 0, NoOpOfOne(MsbFirst) + QUERY_AFTER)
    ensures Contains(b.store, 0, NoOpOfOne(MsbFirst)) && Contains(b.store, 4, SPLIT) && Contains(b.store, 8, QUERY_AFTER)
  {
    var s := NoOpOfOne(MsbFirst) + QUERY_AFTER;
    assert NoOpOfOne(MsbFirst) == s[..8] && SPLIT == s[4..8] && QUERY_AFTER == s[8..20];
    assert forall j :: 0 <= j < 20 ==> s[j] == b.store[j];
  }

  lemma ReadOfThree(p: Parser, c: Conn)
    requires p.host == MsbFirst && Extended(p, c) && p.stash == map[]
    ensures var d := AtOpening(NewDir()); d.b.Valid() && Receive(FromClient, p, c, d, NoOpOfOne(MsbFirst) + QUERY_AFTER).Some?
    ensures var m := Receive(FromClient, p, c, AtOpening(NewDir()), NoOpOfOne(MsbFirst) + QUERY_AFTER).value;
      && m.d.b.Valid() && m.d.b.parsed == m.d.b.Size() == 20 && m.d.cropped
      && Msgs(m.d.log) == [NoOpOfOne(MsbFirst)[..4], SPLIT, QUERY_AFTER] && m.p == p.(stash := m.p.stash)
      && m.c == Register(Register(Register(c, NO_OPERATION), 0), QUERY_EXTENSION).(mem := m.c.mem)
  {
    var chunk := NoOpOfOne(MsbFirst) + QUERY_AFTER;
    ReadAtOpening(chunk);
    var b := AfterOpening(chunk);
    PiecesAreThere(b);
    PassOfThree(p, c.(mem := b.store), b);
    var log := Pass(CLIENT_RULES, p, c.(mem := b.store), b, 0).value.log;
    assert AtOpening(NewDir()).log + log == log;
    assert !WellFormed(FromClient, MsbFirst, Msgs(log)[0]);
  }

  /** A client sends that and then asks for an extension that is not allowed: its second request is counted as
      the third, and the reply to it goes out with `present` set. */
  lemma CropShowsDenied(p: Parser, c: Conn)
    requires p.host == MsbFirst && Extended(p, c) && p.stash == map[] && 0 !in p.majors && p.allowed == {BIG_REQUESTS}
    requires c.sequence == 0 && c.opcodes == map[]
    ensures var d := AtOpening(NewDir()); var chunk := NoOpOfOne(MsbFirst) + QUERY_AFTER;
      && NameIn(MsbFirst, QUERY_AFTER) == Some([88]) && [88] !in p.allowed
      && d.b.Valid() && Receive(FromClient, p, c, d, chunk).Some?
      && var m := Receive(FromClient, p, c, d, chunk).value;
        && m.d.b.Valid() && m.d.b.parsed == m.d.b.Size() && Msgs(m.d.log) == [NoOpOfOne(MsbFirst)[..4], SPLIT, QUERY_AFTER]
        && LogResponse(m.p, m.c, PRESENT).Some? && LogResponse(m.p, m.c, PRESENT).value.out == PRESENT && PRESENT[8] == 1
  {
    ReadOfThree(p, c);
    var m := Receive(FromClient, p, c, AtOpening(NewDir()), NoOpOfOne(MsbFirst) + QUERY_AFTER).value;
    QueryNames();
    CountedAhead(c, m.c);
    SecondIsUnknown(m.p, m.c);
  }

  lemma CountedAhead(c: Conn, c': Conn)
    requires c.sequence == 0 && c.opcodes == map[]
    requires c' == Register(Register(Register(c, NO_OPERATION), 0), QUERY_EXTENSION).(mem := c'.mem)
    ensures c'.byteswap == c.byteswap && 2 in c'.opcodes && c'.opcodes[2] == 0
  {
  }

  lemma QueryNames()
    ensures NameIn(MsbFirst, QUERY_AFTER) == Some([88])
  {
    assert U16(MsbFirst, QUERY_AFTER, 2) == 3 && U16(MsbFirst, QUERY_AFTER, 4) == 1 && QUERY_AFTER[8..9] == [88];
  }

  lemma SecondIsUnknown(p: Parser, c: Conn)
    requires p.host == MsbFirst && !c.byteswap && 0 !in p.majors && 2 in c.opcodes && c.opcodes[2] == 0
    ensures LogResponse(p, c, PRESENT).Some? && LogResponse(p, c, PRESENT).value.out == PRESENT
  {
    assert U16(MsbFirst, PRESENT, 2) == 2 && U32(MsbFirst, PRESENT, 4) == 0;
  }
}
