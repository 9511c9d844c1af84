/**
 When the client's loop logs a request that ends in front of its own length: the extended length says one,
 and the printer adds what is left behind the fixed part, which is less than nothing, modulo 2^64.
 */
module Crops {
  import opened Bytes
  import opened SocketBuffers
  import opened Wire
  import opened Tracking
  import opened MessageLoops
  import opened Passes
  import opened LoopRules

  /** `f` frames what a client's buffer has pending behind `parsed` bytes, and is followed by a request of zero
      16-bit length whose extended length, stale bytes included, is one. All that the buffer holds counts when
      its loop judges whether the extended length is there. */
  predicate CropsAt(o: ByteOrder, b: Buffer, f: Framing)
    requires b.Valid()
  {
    var at := b.written + b.parsed + |Flatten(f.msgs)|;
    && |f.tail| >= 4 && U16(o, f.tail, 2) == 0
    && b.Size() >= 8 && at + 8 <= |b.store| && U32(o, b.store, at + 4) == 1
  }

  /** The pass has logged the framing `f`, or else the messages of `f` and then a cropped request. */
  predicate LogsCropped(o: ByteOrder, f: Framing, msgs: seq<seq<byte>>) {
    && |msgs| > |f.msgs| && msgs[..|f.msgs|] == f.msgs
    && |f.tail| >= 4 && msgs[|f.msgs|] == f.tail[..4] && Cropped(FromClient, o, f.tail[..4])
  }

  /** `msgs` are logged and `tail` is left of what `b` has pending. */
  predicate CropCase(o: ByteOrder, b: Buffer, msgs: seq<seq<byte>>, tail: seq<byte>)
    requires b.Valid()
  {
    var f := Frames(FromClient, o, b.Pending());
    if CropsAt(o, b, f) then LogsCropped(o, f, msgs) else f == Framing(msgs, tail)
  }

  lemma ExtendedFirst(p: Parser, c: Conn, b: Buffer, cur: nat, n: nat)
    requires c.status.Open? && b.Valid() && Aligned(b, cur) && b.Unparsed() >= 4 && U16(p.host, b.store, cur + 2) == 0
    requires MeasureClient(p, c, b, cur) == Some(Measured(c, Some(n))) && 4 <= n <= b.Unparsed()
    ensures b.Size() >= 8 && cur + 8 <= |b.store| && n == ALIGN * U32(Order(p, c), b.store, cur + 4)
  {
    OrderedAt(p.host, c.byteswap, b.store, cur + 4);
  }

  lemma ShortFirst(p: Parser, c: Conn, b: Buffer, cur: nat, n: nat)
    requires c.status.Open? && b.Valid() && Aligned(b, cur) && b.Unparsed() >= 4 && U16(Order(p, c), b.Pending(), 2) != 0
    requires MeasureClient(p, c, b, cur) == Some(Measured(c, Some(n)))
    ensures SizeOf(FromClient, Order(p, c), b.Pending()) == Some(n)
  {
    PendingAt(p, c, b, cur, 2);
  }

  lemma ExtendedSize(o: ByteOrder, b: Buffer, cur: nat, units: nat)
    requires b.Valid() && Aligned(b, cur) && 4 <= ALIGN * units <= b.Unparsed() && U16(o, b.Pending(), 2) == 0
    requires b.Size() >= 8 && cur + 8 <= |b.store| && units == U32(o, b.store, cur + 4)
    ensures if units > 1 then SizeOf(FromClient, o, b.Pending()) == Some(ALIGN * units)
            else SizeOf(FromClient, o, b.Pending()).None? && CropsAt(o, b, Framing([], b.Pending()))
  {
    ExtendedFront(o, b, cur);
    assert Flatten([]) == [];
  }

  /** What a size says that the loop has just read from the length fields. */
  lemma MeasuredFront(p: Parser, c: Conn, b: Buffer, cur: nat, n: nat)
    requires c.status.Open? && b.Valid() && Aligned(b, cur)
    requires MeasureClient(p, c, b, cur) == Some(Measured(c, Some(n))) && 4 <= n <= b.Unparsed()
    ensures var o, s := Order(p, c), b.Pending();
      if U16(o, s, 2) != 0 || n > 4 then SizeOf(FromClient, o, s) == Some(n)
      else SizeOf(FromClient, o, s).None? && CropsAt(o, b, Framing([], s)) && n == 4
  {
    if U16(Order(p, c), b.Pending(), 2) != 0 {
      ShortFirst(p, c, b, cur, n);
    } else {
      PendingAt(p, c, b, cur, 2);
      ExtendedFirst(p, c, b, cur, n);
      ExtendedSize(Order(p, c), b, cur, U32(Order(p, c), b.store, cur + 4));
    }
  }

  lemma ExtendedFront(o: ByteOrder, b: Buffer, cur: nat)
    requires b.Valid() && Aligned(b, cur)
    ensures b.Unparsed() >= 8 ==> cur + 8 <= |b.store| && U32(o, b.Pending(), 4) == U32(o, b.store, cur + 4)
  {
    var s := b.Pending();
    assert forall j :: 0 <= j < |s| ==> s[j] == b.store[cur + j];
  }

  /** A turn takes the message it logs off the front of what is pending. */
  lemma GoesOn(p: Parser, c: Conn, b: Buffer, cur: nat)
    requires c.status.Open? && b.Valid() && Aligned(b, cur)
    requires NextTurn(CLIENT_RULES, p, c, b, cur).Some?
    ensures var t := NextTurn(CLIENT_RULES, p, c, b, cur).value;
      && t.c.status.Open? && Order(t.p, t.c) == Order(p, c)
      && (t.logged.Some? ==>
            && var m := t.logged.value.msg; var n := |m|;
            && 0 < n <= b.Unparsed() && m == b.Pending()[..n]
            && (WellFormed(FromClient, Order(p, c), m) || Cropped(FromClient, Order(p, c), m))
            && t.b == b.(parsed := b.parsed + n, next := None) && t.b.Valid() && t.b.Pending() == b.Pending()[n..])
  {
    BothPreserve(FromClient, p, c);
    TurnPreserves(CLIENT_RULES, KeptFrom(p, c), Proper(FromClient, p, c), p, c, b, cur);
    if NextTurn(CLIENT_RULES, p, c, b, cur).value.logged.Some? {
      ClientIsPlain();
      PlainTakes(CLIENT_RULES, p, c, b, cur);
    }
  }

  /** The message that a turn logs is the stream's next one, or cropped. */
  lemma FirstIs(p: Parser, c: Conn, b: Buffer, cur: nat)
    requires c.status.Open? && b.Valid() && Aligned(b, cur) && b.Unparsed() > 0 && Genuine(FromClient, Order(p, c), b)
    requires NextTurn(CLIENT_RULES, p, c, b, cur).Some? && NextTurn(CLIENT_RULES, p, c, b, cur).value.logged.Some?
    ensures var m := NextTurn(CLIENT_RULES, p, c, b, cur).value.logged.value.msg; var o, s := Order(p, c), b.Pending();
      && 4 <= |m| <= |s| && m == s[..|m|]
      && if WellFormed(FromClient, o, m) then SizeOf(FromClient, o, s) == Some(|m|)
         else Cropped(FromClient, o, m) && SizeOf(FromClient, o, s).None? && CropsAt(o, b, Framing([], s))
  {
    GoesOn(p, c, b, cur);
    var m := NextTurn(CLIENT_RULES, p, c, b, cur).value.logged.value.msg;
    LoggedAsMeasured(CLIENT_RULES, p, c, b, cur);
    if b.next.None? {
      MeasuredFront(p, c, b, cur, |m|);
    }
    if SizeOf(FromClient, Order(p, c), b.Pending()).Some? {
      CutIsWellFormed(FromClient, Order(p, c), b.Pending(), |m|);
    }
  }

  lemma LoggedAsMeasured(rules: Rules, p: Parser, c: Conn, b: Buffer, cur: nat)
    requires b.Valid() && cur <= b.written + b.parsed
    requires NextTurn(rules, p, c, b, cur).Some? && NextTurn(rules, p, c, b, cur).value.logged.Some?
    ensures Measure(rules, p, c, b, cur).Some?
    ensures Measure(rules, p, c, b, cur).value.next == Some(|NextTurn(rules, p, c, b, cur).value.logged.value.msg|)
  {
  }

  lemma MeasureWaits(p: Parser, c: Conn, b: Buffer, cur: nat)
    requires c.status.Open? && b.Valid() && Aligned(b, cur) && MeasureClient(p, c, b, cur).Some?
    requires var n := MeasureClient(p, c, b, cur).value.next; n.None? || b.Unparsed() < n.value
    ensures !CropsAt(Order(p, c), b, Framing([], b.Pending()))
  {
    PendingAt(p, c, b, cur, 2);
    OrderedAt(p.host, c.byteswap, b.store, cur + 4);
  }

  lemma AnnouncedIsUncropped(o: ByteOrder, b: Buffer)
    requires b.Valid() && SizeOf(FromClient, o, b.Pending()).Some?
    ensures !CropsAt(o, b, Framing([], b.Pending()))
  {
    var s, at := b.Pending(), b.written + b.parsed;
    if |s| >= 8 {
      assert forall j :: 4 <= j < 8 ==> s[j] == b.store[at + j];
    }
  }

  lemma NothingWhole(p: Parser, c: Conn, b: Buffer, cur: nat)
    requires c.status.Open? && b.Valid() && Aligned(b, cur) && Genuine(FromClient, Order(p, c), b)
    requires Measure(CLIENT_RULES, p, c, b, cur).Some?
    requires var n := Measure(CLIENT_RULES, p, c, b, cur).value.next; n.None? || b.Unparsed() < n.value
    ensures Frames(FromClient, Order(p, c), b.Pending()) == Framing([], b.Pending())
  {
    if SizeOf(FromClient, Order(p, c), b.Pending()).Some? && b.next.None? {
      ClientIsFaithful(p, c, b, cur);
    }
  }

  /** A turn that waits does so in front of nothing whole, and of no length of one. */
  lemma WaitsUncropped(p: Parser, c: Conn, b: Buffer, cur: nat)
    requires c.status.Open? && b.Valid() && Aligned(b, cur) && Genuine(FromClient, Order(p, c), b)
    requires NextTurn(CLIENT_RULES, p, c, b, cur).Some? && NextTurn(CLIENT_RULES, p, c, b, cur).value.logged.None?
    ensures var t := NextTurn(CLIENT_RULES, p, c, b, cur).value;
      t.b.Valid() && t.b.Pending() == b.Pending() && CropCase(Order(p, c), b, [], b.Pending())
  {
    NothingWhole(p, c, b, cur);
    if b.next.Some? {
      AnnouncedIsUncropped(Order(p, c), b);
    } else {
      MeasureWaits(p, c, b, cur);
    }
  }

  lemma CropsBehind(o: ByteOrder, b: Buffer, b': Buffer, m: seq<byte>, f: Framing)
    requires b.Valid() && b'.Valid() && b' == b.(parsed := b.parsed + |m|, next := None)
    ensures CropsAt(o, b, Framing([m] + f.msgs, f.tail)) == CropsAt(o, b', f)
  {
    assert ([m] + f.msgs)[1..] == f.msgs && |Flatten([m] + f.msgs)| == |m| + |Flatten(f.msgs)|;
  }

  lemma LoggedBehind(o: ByteOrder, m: seq<byte>, f: Framing, msgs: seq<seq<byte>>)
    requires LogsCropped(o, f, msgs)
    ensures LogsCropped(o, Framing([m] + f.msgs, f.tail), [m] + msgs)
  {
    assert ([m] + msgs)[..1 + |f.msgs|] == [m] + msgs[..|f.msgs|];
  }

  lemma CaseBehind(o: ByteOrder, b: Buffer, b': Buffer, m: seq<byte>, msgs: seq<seq<byte>>, tail: seq<byte>)
    requires b.Valid() && b'.Valid() && WellFormed(FromClient, o, m)
    requires b' == b.(parsed := b.parsed + |m|, next := None) && b.Pending() == m + b'.Pending()
    requires CropCase(o, b', msgs, tail)
    ensures CropCase(o, b, [m] + msgs, tail)
  {
    var f := Frames(FromClient, o, b'.Pending());
    FramesCons(FromClient, o, m, b'.Pending());
    CropsBehind(o, b, b', m, f);
    if CropsAt(o, b', f) {
      LoggedBehind(o, m, f, msgs);
    }
  }

  /** A turn that logs a message, and what comes behind it. */
  lemma CaseFrom(p: Parser, c: Conn, b: Buffer, cur: nat, msgs: seq<seq<byte>>, tail: seq<byte>)
    requires c.status.Open? && b.Valid() && Aligned(b, cur) && b.Unparsed() > 0 && Genuine(FromClient, Order(p, c), b)
    requires NextTurn(CLIENT_RULES, p, c, b, cur).Some? && NextTurn(CLIENT_RULES, p, c, b, cur).value.logged.Some?
    requires var t := NextTurn(CLIENT_RULES, p, c, b, cur).value; t.b.Valid() && CropCase(Order(p, c), t.b, msgs, tail)
    ensures CropCase(Order(p, c), b, [NextTurn(CLIENT_RULES, p, c, b, cur).value.logged.value.msg] + msgs, tail)
  {
    var t := NextTurn(CLIENT_RULES, p, c, b, cur).value;
    var m := t.logged.value.msg;
    FirstIs(p, c, b, cur);
    GoesOn(p, c, b, cur);
    if WellFormed(FromClient, Order(p, c), m) {
      CaseBehind(Order(p, c), b, t.b, m, msgs, tail);
    }
  }

  /** What a turn means for the framing: it waits, or the rest continues it. */
  ghost predicate TurnsOn(o: ByteOrder, b: Buffer, t: Turn)
    requires b.Valid()
  {
    && t.b.Valid() && t.c.status.Open? && Order(t.p, t.c) == o
    && (t.logged.None? ==> CropCase(o, b, [], t.b.Pending()))
    && (t.logged.Some? ==>
          && t.b == b.(parsed := b.parsed + |t.logged.value.msg|, next := None) && |t.logged.value.msg| > 0
          && forall msgs, tail | CropCase(o, t.b, msgs, tail) :: CropCase(o, b, [t.logged.value.msg] + msgs, tail))
  }

  predicate OpenAt(p: Parser, c: Conn, b: Buffer, cur: nat) {
    c.status.Open? && b.Valid() && Aligned(b, cur) && b.Unparsed() > 0 && Genuine(FromClient, Order(p, c), b)
  }

  lemma EveryTurn(p: Parser, c: Conn, b: Buffer, cur: nat)
    requires OpenAt(p, c, b, cur) && NextTurn(CLIENT_RULES, p, c, b, cur).Some?
    ensures TurnsOn(Order(p, c), b, NextTurn(CLIENT_RULES, p, c, b, cur).value)
  {
    var t := NextTurn(CLIENT_RULES, p, c, b, cur).value;
    if t.logged.None? {
      WaitsUncropped(p, c, b, cur);
    } else {
      GoesOn(p, c, b, cur);
      forall msgs, tail | CropCase(Order(p, c), t.b, msgs, tail) ensures CropCase(Order(p, c), b, [t.logged.value.msg] + msgs, tail) {
        CaseFrom(p, c, b, cur, msgs, tail);
      }
    }
  }

  ghost predicate EveryTurnGoesOn(rules: Rules) {
    forall p, c, b: Buffer, cur | OpenAt(p, c, b, cur) && NextTurn(rules, p, c, b, cur).Some? ::
      TurnsOn(Order(p, c), b, NextTurn(rules, p, c, b, cur).value)
  }

  lemma CropTurn(rules: Rules, loop: Loop, log: seq<Entry>, p: Parser, c: Conn, b: Buffer, cur: nat, r: Passed) returns (t: Turn)
    requires EveryTurnGoesOn(rules) && LoopOf(rules, loop) && loop(log, p, c, b, cur) == Some(r) && OpenAt(p, c, b, cur)
    ensures TurnsOn(Order(p, c), b, t)
    ensures if t.logged.None? then r.log == log && r.b == t.b
            else loop(log + [t.logged.value], t.p, t.c, t.b, cur + |t.logged.value.msg|) == Some(r)
  {
    LoopTurns(rules, loop, log, p, c, b, cur);
    t := NextTurn(rules, p, c, b, cur).value;
  }

  lemma CaseMore(o: ByteOrder, b: Buffer, t: Turn, log: seq<Entry>, whole: seq<Entry>, tail: seq<byte>)
    requires b.Valid() && TurnsOn(o, b, t) && t.logged.Some? && log + [t.logged.value] <= whole
    requires CropCase(o, t.b, Msgs(whole[|log| + 1..]), tail)
    ensures log <= whole && CropCase(o, b, Msgs(whole[|log|..]), tail)
  {
    BehindFirst(log, t.logged.value, whole);
    assert Msgs(whole[|log|..]) == [t.logged.value.msg] + Msgs(whole[|log| + 1..]);
  }

  lemma {:induction false} CropsFrom(
    rules: Rules, loop: Loop, log: seq<Entry>, p: Parser, c: Conn, b: Buffer, cur: nat, r: Passed)
    requires EveryTurnGoesOn(rules) && LoopOf(rules, loop) && loop(log, p, c, b, cur) == Some(r)
    requires c.status.Open? && b.Valid() && Aligned(b, cur) && Genuine(FromClient, Order(p, c), b)
    ensures log <= r.log && r.b.Valid() && CropCase(Order(p, c), b, Msgs(r.log[|log|..]), r.b.Pending())
    decreases b.Unparsed()
  {
    if b.Unparsed() == 0 {
      LoopEnds(rules, loop, log, p, c, b, cur);
      assert b.Pending() == [] && Msgs(r.log[|log|..]) == [];
    } else {
      var t := CropTurn(rules, loop, log, p, c, b, cur, r);
      if t.logged.None? {
        assert Msgs(r.log[|log|..]) == [];
      } else {
        var e := t.logged.value;
        CropsFrom(rules, loop, log + [e], t.p, t.c, t.b, cur + |e.msg|, r);
        CaseMore(Order(p, c), b, t, log, r.log, r.b.Pending());
      }
    }
  }

  /** One call of the client's loop over bytes behind the parsed ones: what it logs, and when it crops. */
  lemma PassCrops(p: Parser, c: Conn, b: Buffer, cur: nat, r: Passed)
    requires c.status.Open? && b.Valid() && Aligned(b, cur) && Genuine(FromClient, Order(p, c), b)
    requires Pass(CLIENT_RULES, p, c, b, cur) == Some(r)
    ensures r.b.Valid() && CropCase(Order(p, c), b, Msgs(r.log), r.b.Pending())
  {
    ClientTurnsGoOn();
    var loop: Loop := (log, p, c, b, cur: nat) => GoingOn(CLIENT_RULES, log, p, c, b, cur);
    LoopStarts(CLIENT_RULES, loop, p, c, b, cur);
    CropsFrom(CLIENT_RULES, loop, [], p, c, b, cur, r);
    assert r.log[0..] == r.log;
  }

  lemma ClientTurnsGoOn()
    ensures EveryTurnGoesOn(CLIENT_RULES)
  {
    forall p, c, b: Buffer, cur | OpenAt(p, c, b, cur) && NextTurn(CLIENT_RULES, p, c, b, cur).Some?
      ensures TurnsOn(Order(p, c), b, NextTurn(CLIENT_RULES, p, c, b, cur).value)
    {
      EveryTurn(p, c, b, cur);
    }
  }

  // ---- from wherever the loop starts ----

  /** A logged request has the length it announces, or its extended length is behind it, in `mem`. */
  function Announced(o: ByteOrder, mem: seq<byte>): Entry -> bool {
    (e: Entry) => WellFormed(FromClient, o, e.msg) ||
                  (Cropped(FromClient, o, e.msg) && e.at + 8 <= |mem| && U32(o, mem, e.at + 4) == 1)
  }

  lemma BothAnnounce(p0: Parser, c0: Conn)
    requires c0.status.Open?
    ensures Preserves(CLIENT_RULES, KeptFrom(p0, c0), Announced(Order(p0, c0), c0.mem))
  {
    forall p, c, m, at | Kept(p0, c0, p, c) && HandleClient(p, c, m, at).Some?
      ensures var l := HandleClient(p, c, m, at).value; Kept(p0, c0, l.p, l.c) && Announced(Order(p0, c0), c0.mem)(Entry(m, l.out, at))
    {
      HandleKeeps(FromClient, p, c, m, at);
      HandledFits(FromClient, p, c, m, at);
    }
  }

  lemma AllAnnounced(p: Parser, c: Conn, b: Buffer, cur: nat)
    requires b.Valid() && cur <= b.written + b.parsed && c.status.Open? && Pass(CLIENT_RULES, p, c, b, cur).Some?
    ensures forall e <- Pass(CLIENT_RULES, p, c, b, cur).value.log :: Announced(Order(p, c), c.mem)(e)
  {
    BothAnnounce(p, c);
    PassPreserves(CLIENT_RULES, KeptFrom(p, c), Announced(Order(p, c), c.mem), p, c, b, cur);
  }

  lemma TailIs(o: ByteOrder, mem: seq<byte>, cur: nat, s: seq<byte>)
    requires cur + |s| <= |mem| && s == mem[cur..cur + |s|] && |s| >= 8
    requires Cropped(FromClient, o, s[..4]) && U32(o, mem, cur + 4) == 1
    ensures EndsInItsHeader(FromClient, o, Frames(FromClient, o, s).tail)
  {
    assert forall j :: 0 <= j < 8 ==> s[j] == mem[cur + j];
    assert forall j :: 0 <= j < 4 ==> s[..4][j] == s[j];
  }

  lemma BehindIn(mem: seq<byte>, cur: nat, s: seq<byte>, m: seq<byte>, rest: seq<byte>)
    requires cur + |s| <= |mem| && s == mem[cur..cur + |s|] && |m + rest| <= |s| && m + rest == s[..|m + rest|]
    ensures var t := s[|m|..]; s == m + t && t == mem[cur + |m|..cur + |m| + |t|] && rest == t[..|rest|]
  {
    assert forall j :: 0 <= j < |rest| ==> rest[j] == (m + rest)[|m| + j] == s[|m| + j];
    assert forall j :: 0 <= j < |m| ==> m[j] == (m + rest)[j] == s[j];
  }

  /** A log that crops a request has come to the end of the framing: the rest goes on with it. */
  lemma {:induction false} CroppedEnds(o: ByteOrder, mem: seq<byte>, log: seq<Entry>, cur: nat, s: seq<byte>)
    requires Adjacent(log, cur) && cur + |s| <= |mem| && s == mem[cur..cur + |s|]
    requires |Joined(log)| + 4 <= |s| && Joined(log) == s[..|Joined(log)|]
    requires (forall e <- log :: Announced(o, mem)(e)) && !AllWellFormed(FromClient, o, Msgs(log))
    ensures EndsInItsHeader(FromClient, o, Frames(FromClient, o, s).tail)
  {
    var m, rest := log[0].msg, log[1..];
    var n := |m|;
    assert Announced(o, mem)(log[0]);
    assert m == s[..n];
    if WellFormed(FromClient, o, m) {
      assert Msgs(log) == [m] + Msgs(rest);
      BehindIn(mem, cur, s, m, Joined(rest));
      CroppedEnds(o, mem, rest, cur + n, s[n..]);
      FramesCons(FromClient, o, m, s[n..]);
    } else {
      TailIs(o, mem, cur, s);
    }
  }
}
