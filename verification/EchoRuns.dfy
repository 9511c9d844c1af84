/**
 Two concrete runs in which the client's loop frames a message twice: a read ends one byte behind a one-unit
 request, on bytes that happen to be zero.
 */
module EchoRuns {
  import opened Bytes
  import opened SocketBuffers
  import opened Wire
  import opened Tracking
  import opened SequenceTable
  import opened MessageLoops
  import opened Passes
  import opened Relay
  import opened Worlds

  const FIRST: seq<byte> := [200, 0, 1, 0]
  const SECOND: seq<byte> := [201, 0, 1, 0]
  const NO_OP: seq<byte> := [NO_OPERATION, 0, 1, 0]
  /** The server's reply to the second request it gets: present. */
  const SECOND_REPLY: seq<byte> := [1, 0, 2, 0, 0, 0, 0, 0, 1, 130] + seq(22, _ => 0)

  predicate Plainly(p: Parser, c: Conn) { p.host == LsbFirst && !c.byteswap && c.status.Open? }

  /** The loop at a whole request that carries no string. */
  lemma TakesUnit(p: Parser, c: Conn, b: Buffer, cur: nat, m: seq<byte>)
    requires Plainly(p, c) && b.Valid() && b.next.None? && cur <= b.written + b.parsed
    requires |m| == 4 && m[1..] == [0, 1, 0] && !Stashes(m[0]) && b.Unparsed() >= 4 && Contains(b.store, cur, m)
    ensures NextTurn(CLIENT_RULES, p, c, b, cur) == Some(Turn(p, Register(c, m[0]), b.(parsed := b.parsed + 4), Some(Entry(m, m, cur))))
  {
    var s := b.store;
    assert s[cur + 2] == m[2] == 1 && s[cur + 3] == m[3] == 0 by {
      assert m[2] == m[1..][1] && m[3] == m[1..][2];
      assert s[cur..cur + 4][2] == s[cur + 2] && s[cur..cur + 4][3] == s[cur + 3];
    }
    assert U16(LsbFirst, s, cur + 2) == 1 && U16(LsbFirst, m, 2) == 1;
    assert LogRequest(p, c, m, cur) == Some(Tracked(p, Register(c, m[0])));
    assert Patched(s, cur, m) == s;
  }

  /** The loop where the length field is zero and the buffer holds less than an extended header. */
  lemma WaitsOnZeros(p: Parser, c: Conn, b: Buffer, cur: nat)
    requires p.host == LsbFirst && c.status.Open? && b.Valid() && b.next.None? && cur <= b.written + b.parsed
    requires 4 <= b.Size() < 8 && cur + 4 <= |b.store| && b.store[cur + 2] == b.store[cur + 3] == 0
    ensures NextTurn(CLIENT_RULES, p, c, b, cur) == Some(Turn(p, c, b, None))
  {
  }

  lemma UnitThen(p: Parser, c: Conn, b: Buffer, cur: nat, m: seq<byte>, r: Passed)
    requires Plainly(p, c) && b.Valid() && b.next.None? && cur <= b.written + b.parsed
    requires |m| == 4 && m[1..] == [0, 1, 0] && !Stashes(m[0]) && b.Unparsed() >= 4 && Contains(b.store, cur, m)
    requires Pass(CLIENT_RULES, p, Register(c, m[0]), b.(parsed := b.parsed + 4), cur + 4) == Some(r)
    ensures Pass(CLIENT_RULES, p, c, b, cur) == Some(r.(log := [Entry(m, m, cur)] + r.log))
  {
    TakesUnit(p, c, b, cur, m);
    PassTurns(CLIENT_RULES, p, c, b, cur);
  }

  // ---- the read that leaves a request and one byte ----

  /** A buffer that holds `FIRST`, parsed, and one byte of the next request. */
  predicate OneAndABit(b: Buffer, parsed: nat, next: byte) {
    && b.Valid() && b.written == 0 && b.parsed == parsed && b.read == 5 && b.next.None? && |b.store| == BLOCK_SZ
    && b.store[..5] == FIRST + [next] && b.store[6] == b.store[7] == 0
  }

  lemma FirstPass(p: Parser, c: Conn, b: Buffer, next: byte)
    requires Plainly(p, c) && OneAndABit(b, 0, next)
    ensures Pass(CLIENT_RULES, p, c, b, 0) == Some(Passed(p, Register(c, 200), b.(parsed := 4), [Entry(FIRST, FIRST, 0)]))
  {
    var b', c' := b.(parsed := 4), Register(c, 200);
    WaitsOnZeros(p, c', b', 4);
    PassTurns(CLIENT_RULES, p, c', b', 4);
    assert b.store[0..4] == b.store[..5][..4] == FIRST;
    UnitThen(p, c, b, 0, FIRST, Passed(p, c', b', []));
    assert [Entry(FIRST, FIRST, 0)] + [] == [Entry(FIRST, FIRST, 0)];
  }

  /** A client's direction when its connection opens, with nothing sent behind its first message. */
  function Opened(): Dir { AtOpening(NewDir()) }

  lemma FirstRead(p: Parser, c: Conn, next: byte)
    requires Plainly(p, c)
    ensures Receive(FromClient, p, c, Opened(), FIRST + [next]).Some?
    ensures var m := Receive(FromClient, p, c, Opened(), FIRST + [next]).value;
      && OneAndABit(m.d.b, 4, next) && m.p == p && m.c == Register(c, 200).(mem := m.d.b.store)
      && m.d.log == [Entry(FIRST, FIRST, 0)] && m.d.received == FIRST + [next]
  {
    var d, chunk := Opened(), FIRST + [next];
    var b := Append(d.b, chunk, BLOCK_SZ);
    assert Filled(d.b, chunk) == Some(b);
    assert b.store == chunk + d.b.store[5..];
    FirstPass(p, c.(mem := b.store), b, next);
  }

  // ---- logged twice ----

  lemma SecondPass(p: Parser, c: Conn, b: Buffer)
    requires Plainly(p, c)
    requires b.Valid() && b.written == 0 && b.parsed == 4 && b.read == 8 && b.next.None? && b.store[0..4] == FIRST
    ensures Pass(CLIENT_RULES, p, c, b, 0) == Some(Passed(p, Register(c, 200), b.(parsed := 8), [Entry(FIRST, FIRST, 0)]))
  {
    var b', c' := b.(parsed := 8), Register(c, 200);
    assert Pass(CLIENT_RULES, p, c', b', 4) == Some(Passed(p, c', b', []));
    UnitThen(p, c, b, 0, FIRST, Passed(p, c', b', []));
    assert [Entry(FIRST, FIRST, 0)] + [] == [Entry(FIRST, FIRST, 0)];
  }

  lemma SecondFilled(b: Buffer, b': Buffer)
    requires OneAndABit(b, 4, 201) && b' == Append(b, SECOND[1..], BLOCK_SZ - 5)
    ensures Filled(b, SECOND[1..]) == Some(b')
    ensures b'.Valid() && b'.written == 0 && b'.parsed == 4 && b'.read == 8 && b'.next.None?
    ensures b'.Data() == FIRST + SECOND && b'.store[0..4] == FIRST
  {
    AppendEnqueues(b, SECOND[1..], BLOCK_SZ - 5);
    assert FIRST + [201] + SECOND[1..] == FIRST + SECOND;
    assert b'.store[..5] == b.store[..5] && b'.store[0..4] == b'.store[..5][..4];
  }

  lemma SecondRead(p: Parser, c: Conn, d: Dir)
    requires Plainly(p, c)
    requires OneAndABit(d.b, 4, 201) && d.log == [Entry(FIRST, FIRST, 0)] && d.received == FIRST + [201]
    ensures Receive(FromClient, p, c, d, SECOND[1..]).Some?
    ensures var m := Receive(FromClient, p, c, d, SECOND[1..]).value;
      && m.d.received == FIRST + SECOND && m.d.echoed && m.d.b.Valid() && m.d.b.Data() == FIRST + SECOND
      && Msgs(m.d.log) == [FIRST, FIRST]
  {
    var b := Append(d.b, SECOND[1..], BLOCK_SZ - 5);
    assert FIRST + [201] + SECOND[1..] == FIRST + SECOND;
    SecondFilled(d.b, b);
    SecondPass(p, c.(mem := b.store), b);
    assert d.log + [Entry(FIRST, FIRST, 0)] == [Entry(FIRST, FIRST, 0), Entry(FIRST, FIRST, 0)];
  }

  /** Reading `FIRST` and `SECOND` in two pieces, the relay logs `FIRST` twice and `SECOND` never; the
      bytes themselves are kept. */
  lemma LogsTwice(p: Parser, c: Conn)
    requires Plainly(p, c)
    ensures Receive(FromClient, p, c, Opened(), FIRST + [201]).Some?
    ensures var one := Receive(FromClient, p, c, Opened(), FIRST + [201]).value;
      && one.d.b.Valid() && Receive(FromClient, one.p, one.c, one.d, SECOND[1..]).Some?
      && var two := Receive(FromClient, one.p, one.c, one.d, SECOND[1..]).value;
        && two.d.received == FIRST + SECOND && two.d.echoed && two.d.b.Valid() && two.d.b.Data() == FIRST + SECOND
        && Msgs(two.d.log) == [FIRST, FIRST]
    ensures Frames(FromClient, LsbFirst, FIRST + SECOND) == Framing([FIRST, SECOND], [])
  {
    FirstRead(p, c, 201);
    var one := Receive(FromClient, p, c, Opened(), FIRST + [201]).value;
    SecondRead(one.p, one.c, one.d);
    FramesOfBoth();
  }

  lemma FramesOfBoth()
    ensures Frames(FromClient, LsbFirst, FIRST + SECOND) == Framing([FIRST, SECOND], [])
  {
    assert U16(LsbFirst, FIRST, 2) == 1 && U16(LsbFirst, SECOND, 2) == 1;
    assert Flatten([FIRST, SECOND]) == FIRST + Flatten([SECOND]);
    FlattenOne(SECOND);
    assert FIRST + SECOND == Flatten([FIRST, SECOND]) + [];
    FramesUnique(FromClient, LsbFirst, [FIRST, SECOND], []);
  }

  // ---- a denied extension shown after three requests ----

  /** The loop at the query. */
  lemma TakesQuery(p: Parser, c: Conn, b: Buffer, cur: nat)
    requires Plainly(p, c) && p.stash == map[] && b.Valid() && b.next.None? && cur <= b.written + b.parsed
    requires b.Unparsed() >= 12 && Contains(b.store, cur, QUERY_X)
    ensures NextTurn(CLIENT_RULES, p, c, b, cur)
      == Some(Turn(p.(stash := map[(c.id, Next(c.sequence)) := Slice(|c.mem|, cur + 8, 1)]), Register(c, QUERY_EXTENSION),
                   b.(parsed := b.parsed + 12), Some(Entry(QUERY_X, QUERY_X, cur))))
  {
    var s := b.store;
    assert s[cur + 2] == 3 && s[cur + 3] == 0 by {
      assert s[cur..cur + 12][2] == s[cur + 2] && s[cur..cur + 12][3] == s[cur + 3];
    }
    assert U16(LsbFirst, s, cur + 2) == 3 && U16(LsbFirst, QUERY_X, 2) == 3 && U16(LsbFirst, QUERY_X, 4) == 1;
    assert Patched(s, cur, QUERY_X) == s;
  }

  lemma QueryThen(p: Parser, c: Conn, b: Buffer)
    requires Plainly(p, c) && p.stash == map[]
    requires b.Valid() && b.written == 0 && b.parsed == 8 && b.read == 20 && b.next.None? && Contains(b.store, 4, QUERY_X)
    ensures Pass(CLIENT_RULES, p, c, b, 4)
      == Some(Passed(p.(stash := map[(c.id, Next(c.sequence)) := Slice(|c.mem|, 12, 1)]), Register(c, QUERY_EXTENSION),
                     b.(parsed := 20), [Entry(QUERY_X, QUERY_X, 4)]))
  {
    TakesQuery(p, c, b, 4);
    PassTurns(CLIENT_RULES, p, c, b, 4);
    assert [Entry(QUERY_X, QUERY_X, 4)] + [] == [Entry(QUERY_X, QUERY_X, 4)];
  }

  lemma QueryPass(p: Parser, c: Conn, b: Buffer)
    requires Plainly(p, c) && p.stash == map[]
    requires b.Valid() && b.written == 0 && b.parsed == 4 && b.read == 20 && b.next.None?
    requires Contains(b.store, 0, FIRST) && Contains(b.store, 4, QUERY_X)
    ensures var c' := Register(c, 200);
      Pass(CLIENT_RULES, p, c, b, 0)
      == Some(Passed(p.(stash := map[(c.id, Next(c'.sequence)) := Slice(|c.mem|, 12, 1)]), Register(c', QUERY_EXTENSION),
                     b.(parsed := 20), [Entry(FIRST, FIRST, 0), Entry(QUERY_X, QUERY_X, 4)]))
  {
    var c' := Register(c, 200);
    var b' := b.(parsed := 8);
    QueryThen(p, c', b');
    UnitThen(p, c, b, 0, FIRST, Pass(CLIENT_RULES, p, c', b', 4).value);
    assert [Entry(FIRST, FIRST, 0)] + [Entry(QUERY_X, QUERY_X, 4)] == [Entry(FIRST, FIRST, 0), Entry(QUERY_X, QUERY_X, 4)];
  }

  lemma QueryFilled(b: Buffer, b': Buffer)
    requires OneAndABit(b, 4, QUERY_EXTENSION) && b' == Append(b, QUERY_X[1..] + NO_OP, BLOCK_SZ - 5)
    ensures Filled(b, QUERY_X[1..] + NO_OP) == Some(b')
    ensures b'.Valid() && b'.written == 0 && b'.parsed == 4 && b'.read == 20 && b'.next.None?
    ensures Contains(b'.store, 0, FIRST) && Contains(b'.store, 4, QUERY_X)
  {
    var chunk := QUERY_X[1..] + NO_OP;
    AppendEnqueues(b, chunk, BLOCK_SZ - 5);
    assert FIRST + [QUERY_EXTENSION] + chunk == FIRST + QUERY_X + NO_OP;
    assert b'.Data() == b'.store[0..20] == FIRST + QUERY_X + NO_OP;
    assert b'.store[0..4] == b'.store[0..20][..4] && b'.store[4..16] == b'.store[0..20][4..16];
  }

  lemma QueryRead(p: Parser, c: Conn, d: Dir)
    requires Plainly(p, c) && p.stash == map[]
    requires OneAndABit(d.b, 4, QUERY_EXTENSION) && d.log == [Entry(FIRST, FIRST, 0)] && d.received == FIRST + [QUERY_EXTENSION]
    ensures Receive(FromClient, p, c, d, QUERY_X[1..] + NO_OP).Some?
    ensures var m := Receive(FromClient, p, c, d, QUERY_X[1..] + NO_OP).value;
      && m.d.received == FIRST + QUERY_X + NO_OP && m.d.b.Valid() && m.d.b.parsed == m.d.b.Size()
      && Msgs(m.d.log) == [FIRST, FIRST, QUERY_X]
      && m.c == Register(Register(c, 200), QUERY_EXTENSION).(mem := m.c.mem)
      && m.p == p.(stash := m.p.stash)
  {
    var chunk := QUERY_X[1..] + NO_OP;
    var b := Append(d.b, chunk, BLOCK_SZ - 5);
    assert FIRST + [QUERY_EXTENSION] + chunk == FIRST + QUERY_X + NO_OP;
    QueryFilled(d.b, b);
    QueryPass(p, c.(mem := b.store), b);
    assert Msgs(d.log + [Entry(FIRST, FIRST, 0), Entry(QUERY_X, QUERY_X, 4)]) == [FIRST, FIRST, QUERY_X];
  }

  lemma FramesOfThree()
    ensures Frames(FromClient, LsbFirst, FIRST + QUERY_X + NO_OP) == Framing([FIRST, QUERY_X, NO_OP], [])
  {
    assert U16(LsbFirst, FIRST, 2) == 1 && U16(LsbFirst, QUERY_X, 2) == 3 && U16(LsbFirst, NO_OP, 2) == 1;
    FlattenOne(NO_OP);
    assert Flatten([QUERY_X, NO_OP]) == QUERY_X + Flatten([NO_OP]);
    assert Flatten([FIRST, QUERY_X, NO_OP]) == FIRST + Flatten([QUERY_X, NO_OP]);
    assert FIRST + QUERY_X + NO_OP == Flatten([FIRST, QUERY_X, NO_OP]) + [];
    FramesUnique(FromClient, LsbFirst, [FIRST, QUERY_X, NO_OP], []);
  }

  lemma ThreeInTwoReads(p: Parser, c: Conn)
    requires Plainly(p, c) && p.stash == map[]
    ensures Receive(FromClient, p, c, Opened(), FIRST + [QUERY_EXTENSION]).Some?
    ensures var one := Receive(FromClient, p, c, Opened(), FIRST + [QUERY_EXTENSION]).value;
      && one.d.b.Valid() && Receive(FromClient, one.p, one.c, one.d, QUERY_X[1..] + NO_OP).Some?
      && var two := Receive(FromClient, one.p, one.c, one.d, QUERY_X[1..] + NO_OP).value;
        && two.d.received == FIRST + QUERY_X + NO_OP
        && two.d.b.Valid() && two.d.b.parsed == two.d.b.Size() && Msgs(two.d.log) == [FIRST, FIRST, QUERY_X]
        && two.c == Register(Register(Register(c, 200), 200), QUERY_EXTENSION).(mem := two.c.mem)
        && two.p == p.(stash := two.p.stash)
  {
    FirstRead(p, c, QUERY_EXTENSION);
    var one := Receive(FromClient, p, c, Opened(), FIRST + [QUERY_EXTENSION]).value;
    QueryRead(one.p, one.c, one.d);
  }

  /** Reading `FIRST`, `QUERY_X` and `NO_OP` in two pieces, with no extension allowed: the server is sent the
      query as its second request, but the relay has counted it as the third. The server's answer, numbered
      2, leaves with `present` set. */
  lemma EchoShowsDenied(p: Parser, c: Conn)
    requires Plainly(p, c) && p.stash == map[] && p.majors == map[] && p.allowed == {}
    requires c.sequence == 0 && c.opcodes == map[]
    ensures Receive(FromClient, p, c, Opened(), FIRST + [QUERY_EXTENSION]).Some?
    ensures var one := Receive(FromClient, p, c, Opened(), FIRST + [QUERY_EXTENSION]).value;
      && one.d.b.Valid() && Receive(FromClient, one.p, one.c, one.d, QUERY_X[1..] + NO_OP).Some?
      && var two := Receive(FromClient, one.p, one.c, one.d, QUERY_X[1..] + NO_OP).value;
        && Frames(FromClient, LsbFirst, two.d.received) == Framing([FIRST, QUERY_X, NO_OP], [])
        && two.d.b.Valid() && two.d.b.parsed == two.d.b.Size() && Msgs(two.d.log) == [FIRST, FIRST, QUERY_X]
        && LogResponse(two.p, two.c, SECOND_REPLY).Some?
        && LogResponse(two.p, two.c, SECOND_REPLY).value.out == SECOND_REPLY && SECOND_REPLY[8] == 1
  {
    ThreeInTwoReads(p, c);
    FramesOfThree();
    var one := Receive(FromClient, p, c, Opened(), FIRST + [QUERY_EXTENSION]).value;
    var two := Receive(FromClient, one.p, one.c, one.d, QUERY_X[1..] + NO_OP).value;
    CountedTwice(c, two.c);
    SecondIsOneWay(two.p, two.c);
  }

  lemma CountedTwice(c: Conn, c': Conn)
    requires c.sequence == 0 && c.opcodes == map[]
    requires c' == Register(Register(Register(c, 200), 200), QUERY_EXTENSION).(mem := c'.mem)
    ensures c'.byteswap == c.byteswap && 2 in c'.opcodes && c'.opcodes[2] == 200
  {
  }

  lemma SecondIsOneWay(p: Parser, c: Conn)
    requires p.host == LsbFirst && !c.byteswap && p.majors == map[] && 2 in c.opcodes && c.opcodes[2] == 200
    ensures LogResponse(p, c, SECOND_REPLY).Some? && LogResponse(p, c, SECOND_REPLY).value.out == SECOND_REPLY
  {
    assert U16(LsbFirst, SECOND_REPLY, 2) == 2 && U32(LsbFirst, SECOND_REPLY, 4) == 0;
  }
}
