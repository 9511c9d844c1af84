/**
 What becomes of a stashed name when its client goes on sending before the reply comes: the view stays where
 it was, and the bytes under it are the next request's.
 */
module Stale {
  import opened Bytes
  import opened SocketBuffers
  import opened Wire
  import opened Tracking
  import opened Histories
  import opened MessageLoops
  import opened Passes
  import opened LoopRules
  import opened Relay
  import opened Worlds

  /** Everything has been sent, and nothing is known of what comes next. */
  predicate Drained(b: Buffer) {
    b.Valid() && b.read == b.parsed == b.written == 0 && b.next.None? && |b.store| > 0
  }

  /** The store once `q` has been read to its front. */
  function Over(store: seq<byte>, q: seq<byte>): (r: seq<byte>)
    requires |q| <= |store|
    ensures |r| == |store| && r[..|q|] == q
  {
    q + store[|q|..]
  }

  /** One request read alone into a drained buffer. */
  lemma ReadAlone(p: Parser, c: Conn, d: Dir, q: seq<byte>)
    requires c.status.Open? && Drained(d.b) && |q| <= |d.b.store| && WellFormed(FromClient, Order(p, c), q)
    requires LogRequest(p, c.(mem := Over(d.b.store, q)), q, 0).Some?
    ensures Receive(FromClient, p, c, d, q).Some?
    ensures var m := Receive(FromClient, p, c, d, q).value; var store := Over(d.b.store, q);
      var t := LogRequest(p, c.(mem := store), q, 0).value;
      && m.p == t.p && m.c == t.c && m.d.b == d.b.(store := store, read := |q|, parsed := |q|)
      && m.d.log == d.log + [Entry(q, q, 0)]
  {
    FilledAlone(d.b, q);
    PassAlone(p, c.(mem := Over(d.b.store, q)), d.b.(store := Over(d.b.store, q), read := |q|), q);
  }

  lemma FilledAlone(b: Buffer, q: seq<byte>)
    requires Drained(b) && 0 < |q| <= |b.store|
    ensures Filled(b, q) == Some(b.(store := Over(b.store, q), read := |q|))
  {
    assert Append(b, q, |b.store|) == b.(store := Over(b.store, q), read := |q|);
  }

  lemma PassAlone(p: Parser, c: Conn, b: Buffer, q: seq<byte>)
    requires c.status.Open? && b.Valid() && b.written == b.parsed == 0 && b.next.None? && b.read == |q|
    requires WellFormed(FromClient, Order(p, c), q) && b.store[..|q|] == q && LogRequest(p, c, q, 0).Some?
    ensures var t := LogRequest(p, c, q, 0).value;
      Pass(CLIENT_RULES, p, c, b, 0) == Some(Passed(t.p, t.c, b.(parsed := |q|), [Entry(q, q, 0)]))
  {
    var t := LogRequest(p, c, q, 0).value;
    assert b.Pending() == q && b.store[0..|q|] == q && Patched(b.store, 0, q) == b.store;
    ClientIsFaithful(p, c, b, 0);
    assert HandleClient(p, c, q, 0) == Some(Logged(t.p, t.c, q));
    TurnAlone(CLIENT_RULES, p, c, b, q, t);
    PassTurns(CLIENT_RULES, p, c, b, 0);
    assert Pass(CLIENT_RULES, t.p, t.c, b.(parsed := |q|), |q|) == Some(Passed(t.p, t.c, b.(parsed := |q|), []));
    assert [Entry(q, q, 0)] + [] == [Entry(q, q, 0)];
  }

  lemma TurnAlone(rules: Rules, p: Parser, c: Conn, b: Buffer, q: seq<byte>, t: Tracked)
    requires b.Valid() && b.written == b.parsed == 0 && b.next.None? && b.read == |q| > 0
    requires rules.measure(p, c, b, 0) == Some(Measured(c, Some(|q|)))
    requires rules.handle(p, c, q, 0) == Some(Logged(t.p, t.c, q))
    requires b.store[0..|q|] == q && Patched(b.store, 0, q) == b.store
    ensures NextTurn(rules, p, c, b, 0) == Some(Turn(t.p, t.c, b.(parsed := |q|), Some(Entry(q, q, 0))))
  {
  }

  /** Two requests of one client, each read alone, the second after the first has been sent. */
  predicate Alike(p: Parser, c: Conn, q: seq<byte>, q': seq<byte>) {
    var o := Order(p, c);
    && |q| == |q'| && WellFormed(FromClient, o, q) && WellFormed(FromClient, o, q') && U16(o, q, 2) != 0 && U16(o, q', 2) != 0
    && NameIn(o, q).Some? && NameIn(o, q').Some? && NamePlace(o, q) == NamePlace(o, q')
    && (c.id, Next(c.sequence)) !in p.stash && (c.id, Next(Next(c.sequence))) !in p.stash
  }

  /** A request that is read alone and sent on: the buffer is drained again, with the request in its stale bytes. */
  lemma ReadAndSent(p: Parser, c: Conn, d: Dir, q: seq<byte>)
    requires c.status.Open? && Drained(d.b) && |q| <= |d.b.store| && WellFormed(FromClient, Order(p, c), q)
    requires U16(Order(p, c), q, 2) != 0 && NameIn(Order(p, c), q).Some? && (c.id, Next(c.sequence)) !in p.stash
    ensures Receive(FromClient, p, c, d, q).Some?
    ensures var m := Receive(FromClient, p, c, d, q).value; var store := Over(d.b.store, q);
      && m.d.b.Valid() && Flush(m.d).Some? && Drained(Flush(m.d).value.b) && Flush(m.d).value.b.store == store
      && m.c == Register(c, q[0]).(mem := store)
      && m.p == p.(stash := p.stash[(c.id, Next(c.sequence)) := NameSlice(Order(p, c), q, 0, |store|)])
  {
    var store := Over(d.b.store, q);
    assert LogRequest(p, c.(mem := store), q, 0).Some?;
    RequestHasEffect(p, c.(mem := store), q, 0);
    ReadAlone(p, c, d, q);
    SentAlone(Receive(FromClient, p, c, d, q).value.d);
  }

  lemma SentAlone(d: Dir)
    requires d.b.Valid() && d.b.written == 0 && 0 < d.b.parsed == d.b.read && d.b.next.None? && |d.b.store| > 0
    ensures Flush(d).Some? && Drained(Flush(d).value.b) && Flush(d).value.b.store == d.b.store
  {
  }

  /** Whatever the two requests are, if their strings are in the same place, the view that the first one has
      left then spells the second one's string. */
  lemma NextRequestOverwrites(p: Parser, c: Conn, d: Dir, q: seq<byte>, q': seq<byte>)
    requires c.status.Open? && Drained(d.b) && |q| <= |d.b.store| && Alike(p, c, q, q')
    ensures Receive(FromClient, p, c, d, q).Some?
    ensures var one := Receive(FromClient, p, c, d, q).value;
      && one.d.b.Valid() && Flush(one.d).Some? && Flush(one.d).value.b.Valid()
      && Receive(FromClient, one.p, one.c, Flush(one.d).value, q').Some?
      && var two := Receive(FromClient, one.p, one.c, Flush(one.d).value, q').value; var key := (c.id, Next(c.sequence));
        && key in two.p.stash && Spelled(two.c.mem, two.p.stash[key]) == NameIn(Order(p, c), q')
        && two.p == p.(stash := two.p.stash)
        && two.c == Register(Register(c, q[0]), q'[0]).(mem := two.c.mem)
  {
    var o, store := Order(p, c), Over(d.b.store, q);
    ReadAndSent(p, c, d, q);
    var one := Receive(FromClient, p, c, d, q).value;
    Numbers(c.sequence);
    ReadAndSent(one.p, one.c, Flush(one.d).value, q');
    var store' := Over(store, q');
    PlaceSpellsName(o, Placed(q', 0, |store'|), store');
  }

  lemma Numbers(n: nat)
    ensures Next(n) != Next(Next(n))
  {
  }

  // ---- the filter and the mirror are misled ----

  /** QueryExtension for a name of twelve bytes. */
  function Query(name: Name): seq<byte> { [QUERY_EXTENSION, 0, 5, 0, 12, 0, 0, 0] + name }

  const OTHER_NAME: Name := [88, 88, 88, 88, 88, 88, 88, 88, 88, 88, 88, 88]
  const FIRST_PRESENT: seq<byte> := [1, 0, 1, 0, 0, 0, 0, 0, 1, 130] + seq(22, _ => 0)

  lemma QueryReads(name: Name)
    requires |name| == 12
    ensures var q := Query(name);
      && WellFormed(FromClient, LsbFirst, q) && U16(LsbFirst, q, 2) != 0
      && NameIn(LsbFirst, q) == Some(name) && NamePlace(LsbFirst, q) == Some((8, 12))
  {
    var q := Query(name);
    assert U16(LsbFirst, q, 2) == 5 && U16(LsbFirst, q, 4) == 12 && q[8..20] == name;
  }

  lemma QueriesAlike(p: Parser, c: Conn, name: Name, name': Name)
    requires p.host == LsbFirst && !c.byteswap && p.stash == map[] && |name| == |name'| == 12
    ensures Alike(p, c, Query(name), Query(name')) && NameIn(LsbFirst, Query(name')) == Some(name')
  {
    QueryReads(name);
    QueryReads(name');
  }

  /** With only BIG-REQUESTS allowed, a client asks for another extension and, before the answer comes, for
      BIG-REQUESTS: the answer to the first request leaves with `present` set, and from then on the other
      extension's opcode is parsed as that of BIG-REQUESTS. */
  lemma OverwrittenNameIsShown(p: Parser, c: Conn)
    requires p.host == LsbFirst && !c.byteswap && c.status.Open? && c.sequence == 0 && c.opcodes == map[]
    requires p.stash == map[] && p.majors == map[] && p.allowed == {BIG_REQUESTS}
    ensures var d := AtOpening(NewDir()); var q, q' := Query(OTHER_NAME), Query(BIG_REQUESTS);
      && NameIn(LsbFirst, q) == Some(OTHER_NAME) && OTHER_NAME !in p.allowed
      && d.b.Valid() && Receive(FromClient, p, c, d, q).Some?
      && var one := Receive(FromClient, p, c, d, q).value;
        && one.d.b.Valid() && Flush(one.d).Some? && Flush(one.d).value.b.Valid()
        && Receive(FromClient, one.p, one.c, Flush(one.d).value, q').Some?
        && var two := Receive(FromClient, one.p, one.c, Flush(one.d).value, q').value;
          && LogResponse(two.p, two.c, FIRST_PRESENT).Some?
          && var l := LogResponse(two.p, two.c, FIRST_PRESENT).value;
            l.out == FIRST_PRESENT && FIRST_PRESENT[8] == 1 && l.p.majors == map[130 := BIG_REQUESTS]
  {
    var d, q, q' := AtOpening(NewDir()), Query(OTHER_NAME), Query(BIG_REQUESTS);
    QueryReads(OTHER_NAME);
    QueriesAlike(p, c, OTHER_NAME, BIG_REQUESTS);
    NextRequestOverwrites(p, c, d, q, q');
    var one := Receive(FromClient, p, c, d, q).value;
    var two := Receive(FromClient, one.p, one.c, Flush(one.d).value, q').value;
    PresentPasses(two.p, two.c);
  }

  lemma PresentPasses(p: Parser, c: Conn)
    requires p.host == LsbFirst && !c.byteswap && p.majors == map[] && p.allowed == {BIG_REQUESTS}
    requires 1 in c.opcodes && c.opcodes[1] == QUERY_EXTENSION
    requires (c.id, 1) in p.stash && Spelled(c.mem, p.stash[(c.id, 1)]) == Some(BIG_REQUESTS)
    ensures LogResponse(p, c, FIRST_PRESENT).Some?
    ensures var l := LogResponse(p, c, FIRST_PRESENT).value; l.out == FIRST_PRESENT && l.p.majors == map[130 := BIG_REQUESTS]
  {
    assert U16(LsbFirst, FIRST_PRESENT, 2) == 1 && U32(LsbFirst, FIRST_PRESENT, 4) == 0;
  }

  const INTERN_A: seq<byte> := [INTERN_ATOM, 0, 3, 0, 1, 0, 0, 0, 65, 0, 0, 0]
  const INTERN_B: seq<byte> := [INTERN_ATOM, 0, 3, 0, 1, 0, 0, 0, 66, 0, 0, 0]
  /** The answer to the first request: atom 70. */
  const ATOM_70: seq<byte> := [1, 0, 1, 0, 0, 0, 0, 0, 70, 0, 0, 0] + seq(20, _ => 0)

  /** A client interns "A" and, before the answer comes, "B": the mirror has "B" for the atom of "A". */
  lemma OverwrittenNameIsMirrored(p: Parser, c: Conn)
    requires p.host == LsbFirst && !c.byteswap && c.status.Open? && c.sequence == 0 && c.opcodes == map[] && p.stash == map[]
    ensures var d := AtOpening(NewDir());
      && NameIn(LsbFirst, INTERN_A) == Some([65]) && d.b.Valid() && Receive(FromClient, p, c, d, INTERN_A).Some?
      && var one := Receive(FromClient, p, c, d, INTERN_A).value;
        && one.d.b.Valid() && Flush(one.d).Some? && Flush(one.d).value.b.Valid()
        && Receive(FromClient, one.p, one.c, Flush(one.d).value, INTERN_B).Some?
        && var two := Receive(FromClient, one.p, one.c, Flush(one.d).value, INTERN_B).value;
          && LogResponse(two.p, two.c, ATOM_70).Some?
          && LogResponse(two.p, two.c, ATOM_70).value.p.atoms == p.atoms[70 := [66]]
  {
    var d := AtOpening(NewDir());
    InternsRead();
    NextRequestOverwrites(p, c, d, INTERN_A, INTERN_B);
    var one := Receive(FromClient, p, c, d, INTERN_A).value;
    var two := Receive(FromClient, one.p, one.c, Flush(one.d).value, INTERN_B).value;
    AtomIsMirrored(two.p, two.c);
  }

  lemma InternsRead()
    ensures NameIn(LsbFirst, INTERN_A) == Some([65]) && NameIn(LsbFirst, INTERN_B) == Some([66])
    ensures WellFormed(FromClient, LsbFirst, INTERN_A) && WellFormed(FromClient, LsbFirst, INTERN_B)
    ensures U16(LsbFirst, INTERN_A, 2) == 3 == U16(LsbFirst, INTERN_B, 2)
    ensures NamePlace(LsbFirst, INTERN_A) == NamePlace(LsbFirst, INTERN_B)
  {
    assert U16(LsbFirst, INTERN_A, 2) == 3 && U16(LsbFirst, INTERN_A, 4) == 1 && INTERN_A[8..9] == [65];
    assert U16(LsbFirst, INTERN_B, 2) == 3 && U16(LsbFirst, INTERN_B, 4) == 1 && INTERN_B[8..9] == [66];
  }

  lemma AtomIsMirrored(p: Parser, c: Conn)
    requires p.host == LsbFirst && !c.byteswap && 1 in c.opcodes && c.opcodes[1] == INTERN_ATOM
    requires (c.id, 1) in p.stash && Spelled(c.mem, p.stash[(c.id, 1)]) == Some([66])
    ensures LogResponse(p, c, ATOM_70).Some? && LogResponse(p, c, ATOM_70).value.p.atoms == p.atoms[70 := [66]]
  {
    assert U16(LsbFirst, ATOM_70, 2) == 1 && U32(LsbFirst, ATOM_70, 4) == 0;
    assert U16(LsbFirst, ATOM_70, 8) == 70 && U16(LsbFirst, ATOM_70, 10) == 0;
    assert U32(LsbFirst, ATOM_70, 8) == 70;
  }
}
