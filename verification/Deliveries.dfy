/**
 Streams of whole messages on an open connection: one call of a loop logs all of them, and ends the process only
 where one of them, in its turn, does.
 */
module Deliveries {
  import opened Bytes
  import opened SocketBuffers
  import opened Wire
  import opened Tracking
  import opened MessageLoops
  import opened Passes
  import opened LoopRules
  import opened Replies

  /** The state after messages that lie back to back from `at` have been logged, one after another. */
  function HandleAll(rules: Rules, p: Parser, c: Conn, msgs: seq<seq<byte>>, at: nat): Option<(Parser, Conn)>
    decreases |msgs|
  {
    if msgs == [] then Some((p, c))
    else
      var l := rules.handle(p, c, msgs[0], at);
      if l.None? then None else HandleAll(rules, l.value.p, l.value.c, msgs[1..], at + |msgs[0]|)
  }

  lemma MeasuresWhole(side: Side, p: Parser, c: Conn, b: Buffer, cur: nat, m: seq<byte>)
    requires c.status.Open? && b.Valid() && Aligned(b, cur) && b.next.None?
    requires WellFormed(side, Order(p, c), m) && m <= b.Pending()
    ensures RulesOf(side).measure(p, c, b, cur) == Some(Measured(c, Some(|m|)))
  {
    var s := b.Pending();
    assert s == m + s[|m|..];
    SizeOfStable(side, Order(p, c), m, s[|m|..]);
    PendingAt(p, c, b, cur, 2);
    PendingAt(p, c, b, cur, 4);
    assert s[0] == b.store[cur];
  }

  lemma FirstThenRest(b: Buffer, cur: nat, m: seq<byte>, rest: seq<byte>, out: seq<byte>)
    requires b.Valid() && Aligned(b, cur) && b.Pending() == m + rest && |out| == |m|
    ensures b.store[cur..cur + |m|] == m
    ensures var b' := b.(store := Patched(b.store, cur, out), parsed := b.parsed + |m|); b'.Valid() && b'.Pending() == rest
  {
    assert b.store[cur..cur + |m|] == b.Pending()[..|m|];
    assert rest == b.Pending()[|m|..] == b.store[cur + |m|..b.read];
  }

  /** One turn of a loop over a whole message. */
  lemma TakesFirst(rules: Rules, p: Parser, c: Conn, b: Buffer, cur: nat, m: seq<byte>, rest: seq<byte>)
    requires b.Valid() && Aligned(b, cur) && b.next.None? && |m| > 0 && b.Pending() == m + rest
    requires rules.measure(p, c, b, cur) == Some(Measured(c, Some(|m|)))
    ensures var l := rules.handle(p, c, m, cur);
      NextTurn(rules, p, c, b, cur)
      == if l.None? then None
         else Some(Turn(l.value.p, l.value.c, b.(store := Patched(b.store, cur, l.value.out), parsed := b.parsed + |m|),
                        Some(Entry(m, l.value.out, cur))))
  {
    FirstThenRest(b, cur, m, rest, m);
  }

  /** What a call of a loop comes to: the state, what it logged, and how much is read and how much of that left over. */
  function Outcome(r: Option<Passed>): Option<((Parser, Conn), seq<seq<byte>>, nat, int)> {
    if r.None? then None
    else Some(((r.value.p, r.value.c), Msgs(r.value.log), r.value.b.read, r.value.b.read - r.value.b.written - r.value.b.parsed))
  }

  /** ... when it has logged the messages `msgs` and nothing is left over. */
  function AllLogged(after: Option<(Parser, Conn)>, msgs: seq<seq<byte>>, read: nat): Option<((Parser, Conn), seq<seq<byte>>, nat, int)> {
    if after.None? then None else Some((after.value, msgs, read, 0))
  }

  lemma TailIsWellFormed(side: Side, o: ByteOrder, msgs: seq<seq<byte>>)
    requires AllWellFormed(side, o, msgs) && msgs != []
    ensures WellFormed(side, o, msgs[0]) && |msgs[0]| > 0 && AllWellFormed(side, o, msgs[1..])
  {
    forall i | 0 <= i < |msgs| - 1 ensures WellFormed(side, o, msgs[1..][i]) {
      assert msgs[1..][i] == msgs[i + 1];
    }
  }

  /** On an open connection the loop measures whole messages as they are, and logging leaves it open and its byte
      order alone. */
  ghost predicate TakesWhole(rules: Rules, side: Side) {
    && (forall p, c: Conn, b: Buffer, cur, m {:trigger rules.measure(p, c, b, cur), WellFormed(side, Order(p, c), m)} ::
          c.status.Open? && b.Valid() && Aligned(b, cur) && b.next.None? && WellFormed(side, Order(p, c), m) && m <= b.Pending()
          ==> rules.measure(p, c, b, cur) == Some(Measured(c, Some(|m|))))
    && (forall p, c: Conn, m, at {:trigger rules.handle(p, c, m, at)} :: c.status.Open? && rules.handle(p, c, m, at).Some? ==>
          var l := rules.handle(p, c, m, at).value; l.c.status.Open? && Order(l.p, l.c) == Order(p, c))
  }

  lemma BothTakeWhole(side: Side)
    ensures TakesWhole(RulesOf(side), side)
  {
    forall p, c: Conn, b: Buffer, cur, m
      | c.status.Open? && b.Valid() && Aligned(b, cur) && b.next.None? && WellFormed(side, Order(p, c), m) && m <= b.Pending()
      ensures RulesOf(side).measure(p, c, b, cur) == Some(Measured(c, Some(|m|)))
    {
      MeasuresWhole(side, p, c, b, cur, m);
    }
    forall p, c: Conn, m, at | c.status.Open? && RulesOf(side).handle(p, c, m, at).Some? {
      HandleKeeps(side, p, c, m, at);
    }
  }

  lemma MsgsMore(log: seq<Entry>, e: Entry, msgs: seq<seq<byte>>)
    requires msgs != [] && e.msg == msgs[0]
    ensures Msgs(log + [e]) + msgs[1..] == Msgs(log) + msgs
  {
  }

  /** The loop over a whole message and what is behind it. */
  lemma LoopTakes(rules: Rules, loop: Loop, log: seq<Entry>, p: Parser, c: Conn, b: Buffer, cur: nat, m: seq<byte>, rest: seq<byte>)
    returns (b': Buffer)
    requires LoopOf(rules, loop) && b.Valid() && Aligned(b, cur) && b.next.None? && |m| > 0 && b.Pending() == m + rest
    requires rules.measure(p, c, b, cur) == Some(Measured(c, Some(|m|)))
    ensures b'.Valid() && Aligned(b', cur + |m|) && b'.next.None? && b'.Pending() == rest && b'.read == b.read
    ensures var l := rules.handle(p, c, m, cur);
      loop(log, p, c, b, cur)
      == if l.None? then None else loop(log + [Entry(m, l.value.out, cur)], l.value.p, l.value.c, b', cur + |m|)
  {
    assert |b.Pending()| == |m| + |rest|;
    TakesFirst(rules, p, c, b, cur, m, rest);
    LoopTurns(rules, loop, log, p, c, b, cur);
    var l := rules.handle(p, c, m, cur);
    var out := if l.None? then m else l.value.out;
    b' := b.(store := Patched(b.store, cur, out), parsed := b.parsed + |m|);
    FirstThenRest(b, cur, m, rest, out);
  }

  lemma {:induction false} StreamFrom(
    rules: Rules, loop: Loop, side: Side, log: seq<Entry>, p: Parser, c: Conn, b: Buffer, cur: nat, msgs: seq<seq<byte>>)
    requires LoopOf(rules, loop) && TakesWhole(rules, side) && c.status.Open? && b.Valid() && Aligned(b, cur) && b.next.None?
    requires b.Pending() == Flatten(msgs) && AllWellFormed(side, Order(p, c), msgs)
    ensures Outcome(loop(log, p, c, b, cur)) == AllLogged(HandleAll(rules, p, c, msgs, cur), Msgs(log) + msgs, b.read)
    decreases |msgs|
  {
    if msgs == [] {
      assert |b.Pending()| == 0;
      LoopEnds(rules, loop, log, p, c, b, cur);
      assert Msgs(log) + [] == Msgs(log);
    } else {
      var m := msgs[0];
      TailIsWellFormed(side, Order(p, c), msgs);
      assert m <= b.Pending();
      var b' := LoopTakes(rules, loop, log, p, c, b, cur, m, Flatten(msgs[1..]));
      var l := rules.handle(p, c, m, cur);
      if l.Some? {
        var e := Entry(m, l.value.out, cur);
        HandleFirst(rules, p, c, msgs, cur, l.value);
        MsgsMore(log, e, msgs);
        StreamFrom(rules, loop, side, log + [e], l.value.p, l.value.c, b', cur + |m|, msgs[1..]);
      }
    }
  }

  /** One call of a loop over whole messages: it logs them all, and ends the process if and only if logging one of
      them, after those before it, does. */
  lemma StreamIsLogged(side: Side, p: Parser, c: Conn, b: Buffer, cur: nat, msgs: seq<seq<byte>>)
    requires c.status.Open? && b.Valid() && Aligned(b, cur) && b.next.None?
    requires b.Pending() == Flatten(msgs) && AllWellFormed(side, Order(p, c), msgs)
    ensures Outcome(Pass(RulesOf(side), p, c, b, cur)) == AllLogged(HandleAll(RulesOf(side), p, c, msgs, cur), msgs, b.read)
  {
    var rules := RulesOf(side);
    var loop: Loop := (log, p, c, b, cur: nat) => GoingOn(rules, log, p, c, b, cur);
    BothTakeWhole(side);
    LoopStarts(rules, loop, p, c, b, cur);
    StreamFrom(rules, loop, side, [], p, c, b, cur, msgs);
    assert Msgs([]) + msgs == msgs;
  }

  /** The requests have no string, and are in the short form unless the connection may use the other one. */
  predicate Plain(c: Conn, rs: seq<Message>) {
    forall i :: 0 <= i < |rs| ==> rs[i].opcode != 16 && rs[i].opcode != 98 && (rs[i].big ==> c.Enabled(BIG_REQUESTS))
  }

  lemma OneTaken(p: Parser, c: Conn, r: Message, at: nat) returns (c': Conn)
    requires c.status.Open? && Encodable(r.body, r.big) && Plain(c, [r])
    ensures var m := EncodeRequest(Order(p, c), r.opcode, r.detail, r.body, r.big);
      HandleClient(p, c, m, at) == Some(Logged(p, c', m))
    ensures c'.status.Open? && c'.sequence == (c.sequence + 1) % 0x1_0000 && Order(p, c') == Order(p, c)
    ensures c'.extensions == c.extensions
  {
    var m := EncodeRequest(Order(p, c), r.opcode, r.detail, r.body, r.big);
    assert r == [r][0];
    RequestIsTaken(p, c, at, r.opcode, r.detail, r.body, r.big);
    RequestKeepsForm(p, c, m, at);
    c' := LogRequest(p, c, m, at).value.c;
  }

  lemma EncodedTail(o: ByteOrder, rs: seq<Message>)
    requires AllEncodable(rs) && rs != []
    ensures AllEncodable(rs[1..]) && EncodeAll(o, rs)[1..] == EncodeAll(o, rs[1..])
    ensures EncodeAll(o, rs)[0] == EncodeRequest(o, rs[0].opcode, rs[0].detail, rs[0].body, rs[0].big)
  {
    forall i | 0 <= i < |rs| - 1 ensures rs[1..][i] == rs[i + 1] {}
  }

  lemma SumWraps(a: nat, n: nat)
    ensures ((a + 1) % 0x1_0000 + n) % 0x1_0000 == (a + 1 + n) % 0x1_0000
  {
  }

  lemma HandleFirst(rules: Rules, p: Parser, c: Conn, msgs: seq<seq<byte>>, at: nat, l: Logged)
    requires msgs != [] && rules.handle(p, c, msgs[0], at) == Some(l)
    ensures HandleAll(rules, p, c, msgs, at) == HandleAll(rules, l.p, l.c, msgs[1..], at + |msgs[0]|)
  {
  }

  lemma PlainTail(c: Conn, c': Conn, rs: seq<Message>)
    requires rs != [] && Plain(c, rs) && c'.extensions == c.extensions
    ensures Plain(c, [rs[0]]) && Plain(c', rs[1..])
  {
    forall i | 0 <= i < |rs| - 1 ensures rs[1..][i] == rs[i + 1] {}
  }

  ghost predicate HandlesAsClient(rules: Rules) {
    forall p, c, m, at {:trigger HandleClient(p, c, m, at)} :: rules.handle(p, c, m, at) == HandleClient(p, c, m, at)
  }

  /** The parser and the connection's number after messages. */
  function NumberAfter(after: Option<(Parser, Conn)>): Option<(Parser, nat)> {
    if after.None? then None else Some((after.value.0, after.value.1.sequence))
  }

  lemma FirstTaken(rules: Rules, p: Parser, c: Conn, o: ByteOrder, rs: seq<Message>, msgs: seq<seq<byte>>, at: nat) returns (c': Conn)
    requires HandlesAsClient(rules) && c.status.Open? && o == Order(p, c)
    requires rs != [] && AllEncodable(rs) && Plain(c, rs) && msgs == EncodeAll(o, rs)
    ensures HandleAll(rules, p, c, msgs, at) == HandleAll(rules, p, c', msgs[1..], at + |msgs[0]|)
    ensures c'.status.Open? && c'.sequence == (c.sequence + 1) % 0x1_0000 && o == Order(p, c')
    ensures AllEncodable(rs[1..]) && Plain(c', rs[1..]) && msgs[1..] == EncodeAll(o, rs[1..])
  {
    PlainTail(c, c, rs);
    c' := OneTaken(p, c, rs[0], at);
    PlainTail(c, c', rs);
    EncodedTail(o, rs);
    HandleFirst(rules, p, c, msgs, at, Logged(p, c', msgs[0]));
  }

  lemma {:induction false} PlainRequestsAreTaken(
    rules: Rules, p: Parser, c: Conn, o: ByteOrder, rs: seq<Message>, msgs: seq<seq<byte>>, at: nat)
    requires HandlesAsClient(rules) && c.status.Open? && o == Order(p, c) && c.sequence < 0x1_0000
    requires AllEncodable(rs) && Plain(c, rs) && msgs == EncodeAll(o, rs)
    ensures NumberAfter(HandleAll(rules, p, c, msgs, at)) == Some((p, (c.sequence + |rs|) % 0x1_0000))
    decreases |rs|
  {
    if rs != [] {
      var c' := FirstTaken(rules, p, c, o, rs, msgs, at);
      SumWraps(c.sequence, |rs| - 1);
      PlainRequestsAreTaken(rules, p, c', o, rs[1..], msgs[1..], at + |msgs[0]|);
    }
  }

  lemma RequestKeepsForm(p: Parser, c: Conn, m: seq<byte>, at: nat)
    requires LogRequest(p, c, m, at).Some?
    ensures var t := LogRequest(p, c, m, at).value;
      t.c.status == c.status && t.c.byteswap == c.byteswap && t.c.extensions == c.extensions && t.p.host == p.host
  {
  }

  /** Whatever requests without a string a client sends, in either form and order, as far as it may: the loop logs
      exactly these and counts them, with nothing left over. */
  lemma RequestsAreLogged(p: Parser, c: Conn, b: Buffer, rs: seq<Message>)
    requires c.status.Open? && c.sequence < 0x1_0000 && AllEncodable(rs) && Plain(c, rs)
    requires b.Valid() && b.written == b.parsed == 0 && b.next.None? && b.Pending() == Flatten(EncodeAll(Order(p, c), rs))
    ensures exists c': Conn ::
      && Outcome(Pass(CLIENT_RULES, p, c, b, 0)) == Some(((p, c'), EncodeAll(Order(p, c), rs), b.read, 0))
      && c'.sequence == (c.sequence + |rs|) % 0x1_0000
  {
    var msgs := EncodeAll(Order(p, c), rs);
    forall i | 0 <= i < |msgs| ensures WellFormed(FromClient, Order(p, c), msgs[i]) {
      EncodedIsWellFormed(Order(p, c), rs[i].opcode, rs[i].detail, rs[i].body, rs[i].big);
    }
    StreamIsLogged(FromClient, p, c, b, 0, msgs);
    PlainRequestsAreTaken(CLIENT_RULES, p, c, Order(p, c), rs, msgs, 0);
  }

  /** Whatever errors and events a server sends: the loop logs and sends on exactly these. */
  lemma {:induction false} OthersAreTaken(p: Parser, c: Conn, msgs: seq<seq<byte>>, at: nat)
    requires c.status.Open? && forall i :: 0 <= i < |msgs| ==> |msgs[i]| == 32 && msgs[i][0] != 1
    ensures var after := HandleAll(SERVER_RULES, p, c, msgs, at); after.Some? && after.value.0 == p
    decreases |msgs|
  {
    if msgs != [] {
      OthersPass(p, c, msgs[0]);
      HandleKeeps(FromServer, p, c, msgs[0], at);
      forall i | 0 <= i < |msgs| - 1 ensures msgs[1..][i] == msgs[i + 1] {}
      OthersAreTaken(p, LogResponse(p, c, msgs[0]).value.c, msgs[1..], at + |msgs[0]|);
    }
  }

  lemma EventsAreLogged(p: Parser, c: Conn, b: Buffer, msgs: seq<seq<byte>>)
    requires c.status.Open? && forall i :: 0 <= i < |msgs| ==> |msgs[i]| == 32 && msgs[i][0] != 1
    requires b.Valid() && b.written == b.parsed == 0 && b.next.None? && b.Pending() == Flatten(msgs)
    ensures exists c' :: Outcome(Pass(SERVER_RULES, p, c, b, 0)) == Some(((p, c'), msgs, b.read, 0))
  {
    StreamIsLogged(FromServer, p, c, b, 0, msgs);
    OthersAreTaken(p, c, msgs, 0);
  }
}
