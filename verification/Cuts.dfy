/**
 The pieces in which a stream arrives: which of them leave a direction in order, read by read and over
 whole runs.
 */
module Cuts {
  import opened Bytes
  import opened SocketBuffers
  import opened Wire
  import opened Tracking
  import opened Histories
  import opened MessageLoops
  import opened Passes
  import opened LoopRules
  import opened Crops
  import opened Relay
  import opened Worlds
  import opened WorldRuns

  /** Nothing has been framed twice or cropped, nor waits under a wrong size, nor is stuck. */
  predicate InOrder(d: Dir)
    requires d.b.Valid()
  {
    !d.echoed && !d.cropped && !d.lost && !Stuck(d.b)
  }

  /** What arrived on the open connection. */
  function Stream(d: Dir): seq<byte>
    requires d.setup <= |d.log| && |Handshake(d)| <= |d.received|
  {
    d.received[|Handshake(d)|..]
  }

  lemma ReceivedInParts(d: Dir)
    requires d.b.Valid() && d.setup <= |d.log| && d.received == Flatten(Msgs(d.log)) + d.b.Pending()
    ensures |Handshake(d)| <= |d.received|
    ensures d.received[|Handshake(d)|..] == Flatten(Messages(d)) + d.b.Pending()
  {
    assert Msgs(d.log) == Msgs(d.log[..d.setup]) + Msgs(d.log[d.setup..]);
    FlattenAppend(Msgs(d.log[..d.setup]), Msgs(d.log[d.setup..]));
    assert d.received == Handshake(d) + (Flatten(Messages(d)) + d.b.Pending());
  }

  lemma DirIsFramed(side: Side, o: ByteOrder, d: Dir)
    requires Conserves(side, d) && Relay.Framed(side, o, d) && !d.echoed && !d.cropped
    ensures Messages(d) <= Frames(side, o, Stream(d)).msgs
    ensures InOrder(d) ==> Frames(side, o, Stream(d)) == Framing(Messages(d), d.b.Pending())
  {
    ReceivedInParts(d);
    FramesUnique(side, o, Messages(d), []);
    assert Flatten(Messages(d)) + [] == Flatten(Messages(d));
    FramesExtend(side, o, Flatten(Messages(d)), d.b.Pending());
    if InOrder(d) {
      FramesUnique(side, o, Messages(d), d.b.Pending());
    }
  }

  // ---- read by read ----

  /** A piece read behind `rest`: it does not end inside a message that comes behind a whole one, nor, from
      the server, inside the length of a reply; and from the client it brings no request whose extended length
      is one. */
  predicate CleanCut(side: Side, o: ByteOrder, rest: seq<byte>, piece: seq<byte>) {
    var f := Frames(side, o, rest + piece);
    (f.msgs == [] || f.tail == []) && !(side.FromServer? && Torn(f.tail)) && !EndsInItsHeader(side, o, f.tail)
  }

  /** What a pass has before it when nothing is parsed, and what becomes of what it leaves. */
  lemma InOrderPass(side: Side, p: Parser, c: Conn, d: Dir, chunk: seq<byte>)
    requires c.status.Open? && Settled(d.b, HeaderOf(side)) && !Stuck(d.b) && Genuine(side, Order(p, c), d.b)
    requires Receive(side, p, c, d, chunk).Some?
    ensures var b := Filled(d.b, chunk).value; var c' := Refreshed(side, c, b); var r := Pass(RulesOf(side), p, c', b, 0).value;
      && b.Valid() && Aligned(b, 0) && b.parsed == 0 && b.Pending() == d.b.Pending() + chunk && Genuine(side, Order(p, c), b)
      && var d' := Receive(side, p, c, d, chunk).value.d;
        && d'.b == r.b && d'.log == d.log + r.log && d'.log[|d.log|..] == r.log
        && (d'.cropped <==> d.cropped || !AllWellFormed(side, Order(p, c), Msgs(r.log)))
  {
    var o, b := Order(p, c), Filled(d.b, chunk).value;
    FilledAppends(d.b, HeaderOf(side), chunk);
    ReadsBehindNothing(d.b, HeaderOf(side), chunk);
    if d.b.next.Some? {
      SizeOfStable(side, o, d.b.Pending(), chunk);
    }
    var r := Pass(RulesOf(side), p, Refreshed(side, c, b), b, 0).value;
    PassKeeps(side, p, Refreshed(side, c, b), b, 0);
    assert (d.log + r.log)[|d.log|..] == r.log;
  }

  /** A read from a client, behind nothing parsed and under no wrong size, crops a request if and only if the
      messages framed in what it then holds are followed by one of extended length one, as the buffer has it,
      stale bytes included. It has logged those messages then, and the first four bytes behind them. */
  lemma CropsExactly(p: Parser, c: Conn, d: Dir, chunk: seq<byte>)
    requires c.status.Open? && Settled(d.b, HeaderOf(FromClient)) && !Stuck(d.b) && Genuine(FromClient, Order(p, c), d.b)
    requires Receive(FromClient, p, c, d, chunk).Some?
    ensures var d' := Receive(FromClient, p, c, d, chunk).value.d; var o := Order(p, c);
      var f := Frames(FromClient, o, d.b.Pending() + chunk); var b := Filled(d.b, chunk).value;
      && b.Valid() && (d'.cropped <==> d.cropped || CropsAt(o, b, f))
      && (CropsAt(o, b, f) ==> LogsCropped(o, f, Msgs(d'.log[|d.log|..])))
  {
    var o, b := Order(p, c), Filled(d.b, chunk).value;
    var c' := Refreshed(FromClient, c, b);
    InOrderPass(FromClient, p, c, d, chunk);
    var r := Pass(CLIENT_RULES, p, c', b, 0).value;
    PassCrops(p, c', b, 0, r);
    CropsOrFrames(o, b, Msgs(r.log), r.b.Pending());
  }

  lemma CropsOrFrames(o: ByteOrder, b: Buffer, msgs: seq<seq<byte>>, tail: seq<byte>)
    requires b.Valid() && CropCase(o, b, msgs, tail)
    ensures CropsAt(o, b, Frames(FromClient, o, b.Pending())) <==> !AllWellFormed(FromClient, o, msgs)
  {
    var f := Frames(FromClient, o, b.Pending());
    FramesPartition(FromClient, o, b.Pending());
    if CropsAt(o, b, f) {
      assert !WellFormed(FromClient, o, msgs[|f.msgs|]);
    }
  }

  /** A read into a direction that is in order logs what frames there are in what it then holds, and leaves
      it stuck if and only if it ends inside a message behind a whole one. */
  lemma SticksExactly(side: Side, p: Parser, c: Conn, d: Dir, chunk: seq<byte>)
    requires c.status.Open? && Conserves(side, d) && Relay.Framed(side, Order(p, c), d) && InOrder(d)
    requires Receive(side, p, c, d, chunk).Some?
    ensures var d' := Receive(side, p, c, d, chunk).value.d; var f := Frames(side, Order(p, c), d.b.Pending() + chunk);
      && d'.b.Valid()
      && (!d'.cropped ==>
            && (Stuck(d'.b) <==> f.msgs != [] && f.tail != [])
            && d'.b.Pending() == f.tail && |d'.log| == |d.log| + |f.msgs| && Msgs(d'.log[|d.log|..]) == f.msgs)
  {
    var b := Filled(d.b, chunk).value;
    var c' := Refreshed(side, c, b);
    InOrderPass(side, p, c, d, chunk);
    PassIsFraming(side, p, c', b, 0);
    PassSplits(RulesOf(side), p, c', b, 0);
    ParsedIfLogged(b, Pass(RulesOf(side), p, c', b, 0).value);
  }

  lemma ParsedIfLogged(b: Buffer, r: Passed)
    requires b.Valid() && b.parsed == 0 && Splits(b, r)
    ensures r.b.parsed > 0 <==> r.log != []
  {
    if r.log == [] {
      assert Flatten(Outs(r.log)) == [];
      assert |r.b.Data()[..r.b.parsed]| == 0;
    } else {
      SomethingIsParsed(b, r);
    }
  }

  lemma TailIsThere(o: ByteOrder, b: Buffer, f: Framing)
    requires b.Valid() && b.written == b.parsed == 0 && b.Pending() == Flatten(f.msgs) + f.tail && |f.tail| >= 8
    ensures var at := |Flatten(f.msgs)|; at + 8 <= |b.store| && U32(o, b.store, at + 4) == U32(o, f.tail, 4)
  {
    var s, at := b.Pending(), |Flatten(f.msgs)|;
    assert forall j :: 4 <= j < 8 ==> f.tail[j] == s[at + j] == b.store[at + j];
  }

  /** In a clean cut everything that counts for a length is there. */
  lemma CleanIsUncropped(o: ByteOrder, b: Buffer, f: Framing)
    requires b.Valid() && b.written == b.parsed == 0 && b.Pending() == Flatten(f.msgs) + f.tail
    ensures (f.msgs == [] || f.tail == []) ==> (CropsAt(o, b, f) <==> EndsInItsHeader(FromClient, o, f.tail))
    ensures EndsInItsHeader(FromClient, o, f.tail) ==> CropsAt(o, b, f)
  {
    assert |b.Pending()| == b.Size();
    if |f.tail| >= 8 {
      TailIsThere(o, b, f);
    }
  }

  lemma CutCrops(p: Parser, c: Conn, d: Dir, chunk: seq<byte>)
    requires c.status.Open? && Conserves(FromClient, d) && Relay.Framed(FromClient, Order(p, c), d) && InOrder(d)
    requires Receive(FromClient, p, c, d, chunk).Some?
    ensures var d' := Receive(FromClient, p, c, d, chunk).value.d; var f := Frames(FromClient, Order(p, c), d.b.Pending() + chunk);
      && (f.msgs == [] || f.tail == [] ==> (d'.cropped <==> EndsInItsHeader(FromClient, Order(p, c), f.tail)))
      && (EndsInItsHeader(FromClient, Order(p, c), f.tail) ==> d'.cropped)
  {
    CropsExactly(p, c, d, chunk);
    InOrderPass(FromClient, p, c, d, chunk);
    FramesPartition(FromClient, Order(p, c), d.b.Pending() + chunk);
    CleanIsUncropped(Order(p, c), Filled(d.b, chunk).value, Frames(FromClient, Order(p, c), d.b.Pending() + chunk));
  }

  lemma ServerNeverCrops(p: Parser, c: Conn, d: Dir, chunk: seq<byte>)
    requires c.status.Open? && Conserves(FromServer, d) && Relay.Framed(FromServer, Order(p, c), d)
    requires Receive(FromServer, p, c, d, chunk).Some?
    ensures !Receive(FromServer, p, c, d, chunk).value.d.cropped
  {
    LogsFit(FromServer, p, c, d, chunk);
  }

  /** A read keeps a direction in order if and only if it is a clean cut. */
  lemma StaysInOrderExactly(side: Side, p: Parser, c: Conn, d: Dir, chunk: seq<byte>)
    requires c.status.Open? && Conserves(side, d) && Relay.Framed(side, Order(p, c), d) && InOrder(d)
    requires Receive(side, p, c, d, chunk).Some?
    ensures var d' := Receive(side, p, c, d, chunk).value.d;
      d'.b.Valid() && (InOrder(d') <==> CleanCut(side, Order(p, c), d.b.Pending(), chunk))
  {
    SticksExactly(side, p, c, d, chunk);
    LostMeansTorn(side, p, c, d, chunk);
    if side.FromClient? {
      CutCrops(p, c, d, chunk);
    } else {
      ServerNeverCrops(p, c, d, chunk);
    }
  }

  lemma FlushStaysInOrder(side: Side, d: Dir)
    requires Conserves(side, d) && Flush(d).Some? && InOrder(d)
    ensures Flush(d).value.b.Valid() && InOrder(Flush(d).value)
  {
  }

  // ---- the opening of a connection ----

  /** A client that sent something behind its first message before it was answered, or an answer that comes
      with a part of a message behind it, starts out of order. */
  predicate CleanStart(side: Side, o: ByteOrder, piece: seq<byte>) {
    if side.FromClient? then piece == [] else Frames(side, o, piece).tail == []
  }

  lemma AnswerIsFramed(p: Parser, c: Conn, d: Dir, chunk: seq<byte>)
    requires c.status.Unestablished? && d.log == [] && !d.lost && Conserves(FromServer, d) && !Stuck(d.b)
    requires Receive(FromServer, p, c, d, chunk).Some? && Receive(FromServer, p, c, d, chunk).value.d.log != []
    ensures var m := Receive(FromServer, p, c, d, chunk).value;
      m.d.b.Valid() && m.d.log != [] && Frames(FromServer, Order(p, c), m.d.b.Pending()).msgs == []
  {
    var b := Filled(d.b, chunk).value;
    FilledAppends(d.b, HeaderOf(FromServer), chunk);
    ReadsBehindNothing(d.b, HeaderOf(FromServer), chunk);
    ReceiveSettles(FromServer, p, c, d, chunk);
    var r := Pass(SERVER_RULES, p, c, b, 0).value;
    assert d.log + r.log == r.log;
    RestIsFramed(p, c, b, r);
  }

  lemma RestIsFramed(p: Parser, c: Conn, b: Buffer, r: Passed)
    requires c.status.Unestablished? && b.Valid() && Aligned(b, 0)
    requires Pass(SERVER_RULES, p, c, b, 0) == Some(r) && r.log != [] && r.b.Valid()
    ensures Frames(FromServer, Order(p, c), r.b.Pending()).msgs == []
  {
    var c', step := PassFirst(SERVER_RULES, p, c, b, 0);
    AnswerHandled(p, c, b, c', r.log[0], step);
    ServerPassIsFraming(step.p, step.c, step.b, step.b.written + step.b.parsed);
    FramesPartition(FromServer, Order(p, c), step.b.Pending());
  }

  lemma ServerStartsExactly(p: Parser, id: nat, k: Link, chunk: seq<byte>)
    requires LinkHolds(p.host, id, k) && !k.c.status.Open? && Receive(FromServer, p, k.c, k.server, chunk).Some?
    requires Receive(FromServer, p, k.c, k.server, chunk).value.c.status.Open?
    ensures var d := Receive(FromServer, p, k.c, k.server, chunk).value.d;
      d.b.Valid() && |d.cuts| == 1 && (InOrder(d) <==> CleanStart(FromServer, Order(p, k.c), d.cuts[0]))
  {
    var m := Receive(FromServer, p, k.c, k.server, chunk).value;
    AnswerHolds(p, id, k, chunk);
    WaitingParsesNothing(k);
    AnswerIsFramed(p, k.c, k.server, chunk);
    StartsInOrder(Order(p, k.c), m.d);
  }

  /** A server's direction with its first message logged, and perhaps more, but no whole message left over. */
  lemma StartsInOrder(o: ByteOrder, d: Dir)
    requires Conserves(FromServer, d) && Relay.Framed(FromServer, o, d) && d.setup == 1 && d.b.parsed > 0
    requires d.cuts == [Behind(d.received, d.log, 1)] && (d.lost ==> !Stuck(d.b) && !Genuine(FromServer, o, d.b))
    requires Frames(FromServer, o, d.b.Pending()).msgs == []
    ensures InOrder(d) <==> CleanStart(FromServer, o, d.cuts[0])
  {
    ReceivedInParts(d);
    FramesUnique(FromServer, o, Msgs(d.log[1..]), d.b.Pending());
  }

  // ---- whole runs ----

  predicate CleanCuts(side: Side, o: ByteOrder, cuts: seq<seq<byte>>) {
    && cuts != [] && CleanStart(side, o, cuts[0])
    && forall i :: 1 <= i < |cuts| ==> CleanCut(side, o, Frames(side, o, Flatten(cuts[..i])).tail, cuts[i])
  }

  lemma MoreCuts(side: Side, o: ByteOrder, cuts: seq<seq<byte>>, piece: seq<byte>)
    requires cuts != []
    ensures CleanCuts(side, o, cuts + [piece])
      <==> CleanCuts(side, o, cuts) && CleanCut(side, o, Frames(side, o, Flatten(cuts)).tail, piece)
  {
    var cuts' := cuts + [piece];
    assert cuts'[..|cuts|] == cuts && cuts'[|cuts|] == piece;
    forall i | 1 <= i < |cuts| ensures cuts'[..i] == cuts[..i] && cuts'[i] == cuts[i] {}
  }

  /** What a step does to one side of a connection that is open after it: nothing to its cuts; or it reads
      one piece more; or it opens the connection. */
  predicate Untouched(k: Link, k': Link, side: Side) {
    && k.c.status.Open? && k'.c.byteswap == k.c.byteswap && DirOf(k, side).b.Valid()
    && (DirOf(k', side) == DirOf(k, side) || Flush(DirOf(k, side)) == Some(DirOf(k', side)))
  }

  predicate OnePieceMore(p: Parser, k: Link, k': Link, side: Side, chunk: seq<byte>) {
    && k.c.status.Open? && DirOf(k, side).b.Valid() && k.client.b.Valid()
    && Receive(side, p, k.c, DirOf(k, side), chunk).Some?
    && k' == AfterRead(k, side, Receive(side, p, k.c, DirOf(k, side), chunk).value)
  }

  predicate Opens(p: Parser, k: Link, k': Link, chunk: seq<byte>) {
    && !k.c.status.Open? && k.server.b.Valid() && k.client.b.Valid() && Receive(FromServer, p, k.c, k.server, chunk).Some?
    && k' == AfterRead(k, FromServer, Receive(FromServer, p, k.c, k.server, chunk).value)
  }

  lemma ReadCases(p: Parser, k: Link, id: nat, from: Side, chunk: seq<byte>, side: Side)
    requires LinkHolds(p.host, id, k) && Receive(from, p, k.c, DirOf(k, from), chunk).Some?
    requires AfterRead(k, from, Receive(from, p, k.c, DirOf(k, from), chunk).value).c.status.Open?
    ensures var k' := AfterRead(k, from, Receive(from, p, k.c, DirOf(k, from), chunk).value);
      Untouched(k, k', side) || OnePieceMore(p, k, k', side, chunk) || Opens(p, k, k', chunk)
  {
    if k.c.status.Open? {
      OpenReadHolds(p, id, k, from, chunk);
    } else if from.FromClient? {
      FirstReadHolds(p, id, k, chunk);
    }
  }

  lemma StepCases(p0: Parser, w: World, a: Action, id: nat, side: Side) returns (chunk: seq<byte>)
    requires WorldHolds(p0, w) && Act(w, a).Some? && id in Act(w, a).value.links
    requires Act(w, a).value.links[id].c.status.Open?
    ensures id in w.links && LinkHolds(p0.host, id, w.links[id]) && w.p.host == p0.host
    ensures var k, k' := w.links[id], Act(w, a).value.links[id];
      Untouched(k, k', side) || OnePieceMore(w.p, k, k', side, chunk) || Opens(w.p, k, k', chunk)
  {
    assert id in w.links;
    assert LinkHolds(p0.host, id, w.links[id]);
    chunk := [];
    if a.Read? && a.id == id {
      chunk := a.chunk;
      ReadCases(w.p, w.links[id], id, a.side, chunk, side);
    } else {
      OpenedByRead(w, a, id);
      NoReadTouches(w, a, id, side);
    }
  }

  lemma NoReadTouches(w: World, a: Action, id: nat, side: Side)
    requires Act(w, a).Some? && id in w.links && id in Act(w, a).value.links && w.links[id].c.status.Open?
    requires id in w.used && DirOf(w.links[id], side).b.Valid() && !(a.Read? && a.id == id)
    ensures Untouched(w.links[id], Act(w, a).value.links[id], side)
  {
  }

  /** A connection is opened by a read. */
  lemma OpenedByRead(w: World, a: Action, id: nat)
    requires Act(w, a).Some? && id in Act(w, a).value.links && Act(w, a).value.links[id].c.status.Open?
    requires !(a.Read? && a.id == id)
    ensures id in w.links && w.links[id].c.status.Open?
  {
  }

  // ---- whether a direction has been in order all along ----

  /** The states of a run in which connection `id` is open have one of its directions in order. */
  predicate OrderlyAt(p0: Parser, actions: seq<Action>, id: nat, side: Side) {
    var w := ActAll(Begin(p0), actions);
    w.Some? && (OpenIn(w.value, id) ==> DirOf(w.value.links[id], side).b.Valid() && InOrder(DirOf(w.value.links[id], side)))
  }

  predicate OpenIn(w: World, id: nat) { id in w.links && w.links[id].c.status.Open? }

  ghost predicate OrderlyAlong(p0: Parser, actions: seq<Action>, id: nat, side: Side) {
    forall i: nat :: i <= |actions| ==> OrderlyAt(p0, actions[..i], id, side)
  }

  lemma AlongOneMore(p0: Parser, actions: seq<Action>, id: nat, side: Side)
    requires actions != []
    ensures OrderlyAlong(p0, actions, id, side)
      <==> OrderlyAlong(p0, actions[..|actions| - 1], id, side) && OrderlyAt(p0, actions, id, side)
  {
    var before := actions[..|actions| - 1];
    forall i: nat | i <= |before| ensures before[..i] == actions[..i] {}
    assert actions[..|actions|] == actions;
    if OrderlyAlong(p0, actions, id, side) {
      forall i: nat | i <= |before| ensures OrderlyAt(p0, before[..i], id, side) {
        assert OrderlyAt(p0, actions[..i], id, side);
      }
      assert OrderlyAt(p0, actions[..|actions|], id, side);
    } else if OrderlyAlong(p0, before, id, side) && OrderlyAt(p0, actions, id, side) {
      forall i: nat | i <= |actions| ensures OrderlyAt(p0, actions[..i], id, side) {
        assert i < |actions| ==> OrderlyAt(p0, before[..i], id, side);
      }
    }
  }

  /** A connection that is not open yet never was. */
  lemma {:induction false} NotYetOpen(p0: Parser, actions: seq<Action>, id: nat, side: Side)
    requires Fresh(p0) && ActAll(Begin(p0), actions).Some?
    requires var w := ActAll(Begin(p0), actions).value; if id in w.links then !w.links[id].c.status.Open? else id !in w.used
    ensures OrderlyAlong(p0, actions, id, side)
    decreases |actions|
  {
    if actions == [] {
      assert OrderlyAt(p0, actions[..0], id, side);
    } else {
      var before, a := actions[..|actions| - 1], actions[|actions| - 1];
      ReachableHolds(p0, before);
      var w := ActAll(Begin(p0), before).value;
      WasNotOpen(p0, w, a, id);
      NotYetOpen(p0, before, id, side);
      AlongOneMore(p0, actions, id, side);
    }
  }

  lemma WasNotOpen(p0: Parser, w: World, a: Action, id: nat)
    requires WorldHolds(p0, w) && Act(w, a).Some?
    requires var w' := Act(w, a).value; if id in w'.links then !w'.links[id].c.status.Open? else id !in w'.used
    ensures if id in w.links then !w.links[id].c.status.Open? else id !in w.used
  {
    if OpenIn(w, id) {
      StaysOpen(p0, w, a, id);
    }
  }

  /** An open connection stays open until it is closed. */
  lemma StaysOpen(p0: Parser, w: World, a: Action, id: nat)
    requires WorldHolds(p0, w) && Act(w, a).Some? && OpenIn(w, id)
    ensures id in Act(w, a).value.used && (id in Act(w, a).value.links ==> OpenIn(Act(w, a).value, id))
  {
    assert LinkHolds(p0.host, id, w.links[id]);
    if a.Read? && a.id == id {
      OpenReadHolds(w.p, id, w.links[id], a.side, a.chunk);
    } else {
      OthersStayOpen(w, a, id);
    }
  }

  lemma OthersStayOpen(w: World, a: Action, id: nat)
    requires Act(w, a).Some? && OpenIn(w, id) && id in w.used && !(a.Read? && a.id == id)
    ensures id in Act(w, a).value.used && (id in Act(w, a).value.links ==> OpenIn(Act(w, a).value, id))
  {
  }

  lemma OpenStepOrder(p: Parser, id: nat, k: Link, k': Link, side: Side, chunk: seq<byte>)
    requires LinkHolds(p.host, id, k) && LinkHolds(p.host, id, k') && k.c.status.Open? && k'.c.status.Open?
    requires Untouched(k, k', side) || OnePieceMore(p, k, k', side, chunk)
    ensures k'.c.byteswap == k.c.byteswap
    ensures var o := OrderOf(p.host, k.c.byteswap); var d, d' := DirOf(k, side), DirOf(k', side);
      && (CleanCuts(side, o, d'.cuts) ==> CleanCuts(side, o, d.cuts))
      && (InOrder(d) ==> (CleanCuts(side, o, d'.cuts) <==> CleanCuts(side, o, d.cuts) && InOrder(d')))
  {
    if Untouched(k, k', side) {
      UntouchedOrder(side, k, k');
    } else {
      PieceOrder(p, id, k, side, chunk);
    }
  }

  lemma UntouchedOrder(side: Side, k: Link, k': Link)
    requires Conserves(side, DirOf(k, side)) && Untouched(k, k', side)
    ensures var d, d' := DirOf(k, side), DirOf(k', side); d'.b.Valid() && d'.cuts == d.cuts && (InOrder(d) ==> InOrder(d'))
  {
    if InOrder(DirOf(k, side)) && DirOf(k', side) != DirOf(k, side) {
      FlushStaysInOrder(side, DirOf(k, side));
    }
  }

  lemma PieceOrder(p: Parser, id: nat, k: Link, side: Side, chunk: seq<byte>)
    requires LinkHolds(p.host, id, k) && k.c.status.Open? && Receive(side, p, k.c, DirOf(k, side), chunk).Some?
    ensures var o := OrderOf(p.host, k.c.byteswap); var d := DirOf(k, side); var m := Receive(side, p, k.c, d, chunk).value;
      && m.c.byteswap == k.c.byteswap && m.d.b.Valid()
      && (CleanCuts(side, o, m.d.cuts) ==> CleanCuts(side, o, d.cuts))
      && (InOrder(d) ==> (CleanCuts(side, o, m.d.cuts) <==> CleanCuts(side, o, d.cuts) && InOrder(m.d)))
  {
    var o, d := OrderOf(p.host, k.c.byteswap), DirOf(k, side);
    ReceiveFrames(side, p, k.c, d, chunk);
    MoreCuts(side, o, d.cuts, chunk);
    if InOrder(d) {
      DirIsFramed(side, o, d);
      StaysInOrderExactly(side, p, k.c, d, chunk);
    }
  }

  lemma OpeningOrder(p: Parser, id: nat, k: Link, k': Link, side: Side, chunk: seq<byte>)
    requires LinkHolds(p.host, id, k) && !k.c.status.Open? && k'.c.status.Open?
    requires Opens(p, k, k', chunk)
    ensures DirOf(k', side).b.Valid()
    ensures InOrder(DirOf(k', side)) <==> CleanCuts(side, OrderOf(p.host, k'.c.byteswap), DirOf(k', side).cuts)
  {
    AnswerHolds(p, id, k, chunk);
    if side.FromServer? {
      ServerStartsExactly(p, id, k, chunk);
    } else {
      assert |k.client.b.Pending()| == k.client.b.Unparsed();
    }
  }

  /** A direction of an open connection has been in order all along if and only if every piece of its
      stream was a clean cut. */
  lemma {:induction false} OrderlyExactly(p0: Parser, actions: seq<Action>, w: World, id: nat, side: Side)
    requires Fresh(p0) && ActAll(Begin(p0), actions) == Some(w) && OpenIn(w, id)
    ensures OrderlyAlong(p0, actions, id, side)
      <==> CleanCuts(side, OrderOf(p0.host, w.links[id].c.byteswap), DirOf(w.links[id], side).cuts)
    decreases |actions|
  {
    var before, a := actions[..|actions| - 1], actions[|actions| - 1];
    ReachableHolds(p0, before);
    ReachableHolds(p0, actions);
    var v := ActAll(Begin(p0), before).value;
    AlongOneMore(p0, actions, id, side);
    var chunk := StepCases(p0, v, a, id, side);
    var k, k' := v.links[id], w.links[id];
    if k.c.status.Open? {
      OrderlyExactly(p0, before, v, id, side);
      if OrderlyAlong(p0, before, id, side) {
        AlongEnds(p0, before, v, id, side);
      }
      OpenStepOrder(v.p, id, k, k', side, chunk);
    } else {
      NotYetOpen(p0, before, id, side);
      OpeningOrder(v.p, id, k, k', side, chunk);
    }
  }

  lemma AlongEnds(p0: Parser, actions: seq<Action>, w: World, id: nat, side: Side)
    requires ActAll(Begin(p0), actions) == Some(w) && OpenIn(w, id) && OrderlyAlong(p0, actions, id, side)
    ensures DirOf(w.links[id], side).b.Valid() && InOrder(DirOf(w.links[id], side))
  {
    assert actions[..|actions|] == actions;
    assert OrderlyAt(p0, actions[..|actions|], id, side);
  }
}
