/**
 What the request table, the stash, the extension filter and the atom mirror hold after any run, over
 every interleaving of connections, requests and responses.
 */
module Histories {
  import opened Bytes
  import opened Wire
  import opened Tracking

  /** The relay before any connection. */
  predicate Fresh(p: Parser) { p.stash == map[] && p.majors == map[] }

  function Start(p: Parser): System { System(p, map[], {}) }

  /** A request, and where in the client's buffer it was when it was logged: at `at` of `room` bytes. */
  datatype Placed = Placed(msg: seq<byte>, at: nat, room: nat)

  /** The requests of connection `id`, in the order they were logged. */
  function Requests(es: seq<Event>, id: nat): seq<Placed> {
    if es == [] then []
    else
      var before, e := es[..|es| - 1], es[|es| - 1];
      Requests(before, id) + if e.Request? && e.id == id then [Placed(e.msg, e.at, |MemOf(before, id)|)] else []
  }

  /** The same, as the bytes of the requests alone. */
  function Asked(es: seq<Event>, id: nat): (ms: seq<seq<byte>>)
    ensures |ms| == |Requests(es, id)|
    ensures forall n :: 0 <= n < |ms| ==> ms[n] == Requests(es, id)[n].msg
  {
    seq(|Requests(es, id)|, n requires 0 <= n < |Requests(es, id)| => Requests(es, id)[n].msg)
  }

  /** What the client's buffer was last left with. */
  function MemOf(es: seq<Event>, id: nat): seq<byte> {
    if es == [] then []
    else
      var e := es[|es| - 1];
      if (e.Established? || e.Received?) && e.id == id then e.mem else MemOf(es[..|es| - 1], id)
  }

  function SwapOf(es: seq<Event>, id: nat): bool {
    if es == [] then false
    else
      var e := es[|es| - 1];
      if e.Established? && e.id == id then e.byteswap else SwapOf(es[..|es| - 1], id)
  }

  function NameIn(o: ByteOrder, m: seq<byte>): Option<Name> {
    if |m| < 4 || !Stashes(m[0]) then None else NameOf(o, m)
  }

  /** The view of its string that a request leaves in the stash. */
  function SliceOf(o: ByteOrder, r: Placed): Option<Slice> {
    if NameIn(o, r.msg).None? then None else Some(NameSlice(o, r.msg, r.at, r.room))
  }

  /** The `n`-th request carries sequence number `k`. */
  predicate Carries(rs: seq<Placed>, n: nat, k: nat) { 1 <= n <= |rs| && n % SEQ_MOD == k }

  ghost predicate TableAgrees(c: Conn, rs: seq<Placed>) {
    && c.sequence == |rs| % SEQ_MOD
    && forall k <- c.opcodes :: exists n :: Carries(rs, n, k) && rs[n - 1].msg != [] && rs[n - 1].msg[0] == c.opcodes[k]
  }

  ghost predicate StashAgrees(o: ByteOrder, k: nat, v: Slice, rs: seq<Placed>) {
    exists n :: Carries(rs, n, k) && SliceOf(o, rs[n - 1]) == Some(v)
  }

  ghost predicate ConnAgrees(p: Parser, s: System, es: seq<Event>, id: nat)
    requires id in s.conns
  {
    var c := s.conns[id];
    && id in s.used && c.id == id && c.byteswap == SwapOf(es, id) && c.mem == MemOf(es, id)
    && TableAgrees(c, Requests(es, id))
  }

  ghost predicate KeyAgrees(p: Parser, s: System, es: seq<Event>, key: (nat, nat))
    requires key in s.p.stash
  {
    && key.0 in s.used
    && StashAgrees(OrderOf(p.host, SwapOf(es, key.0)), key.1, s.p.stash[key], Requests(es, key.0))
  }

  ghost predicate Agrees(p: Parser, s: System, es: seq<Event>) {
    && s.p.allowed == p.allowed && s.p.host == p.host
    && (forall id <- s.conns :: ConnAgrees(p, s, es, id))
    && (forall key <- s.p.stash :: KeyAgrees(p, s, es, key))
    && (forall id: nat {:trigger Requests(es, id)} :: id !in s.used ==> Requests(es, id) == [])
  }

  lemma CarriesMore(rs: seq<Placed>, m: Placed)
    ensures forall n, k :: Carries(rs, n, k) ==> Carries(rs + [m], n, k) && (rs + [m])[n - 1] == rs[n - 1]
    ensures Carries(rs + [m], |rs| + 1, Next(|rs| % SEQ_MOD))
  {
    assert (|rs| % SEQ_MOD + 1) % SEQ_MOD == (|rs| + 1) % SEQ_MOD;
  }

  lemma AfterEvent(es: seq<Event>, e: Event, id: nat)
    ensures Requests(es + [e], id)
      == if e.Request? && e.id == id then Requests(es, id) + [Placed(e.msg, e.at, |MemOf(es, id)|)] else Requests(es, id)
    ensures MemOf(es + [e], id) == if (e.Established? || e.Received?) && e.id == id then e.mem else MemOf(es, id)
    ensures SwapOf(es + [e], id) == if e.Established? && e.id == id then e.byteswap else SwapOf(es, id)
  {
    assert (es + [e])[..|es|] == es;
  }

  /** All that logging a request does: one number, and one view for those whose reply needs their string. */
  predicate RequestEffect(o: ByteOrder, p: Parser, c: Conn, r: Placed, t: Tracked) {
    && r.msg != [] && t.c == Register(c, r.msg[0]) && t.p == p.(stash := t.p.stash)
    && if SliceOf(o, r).None? then t.p.stash == p.stash
       else (c.id, t.c.sequence) !in p.stash && t.p.stash == p.stash[(c.id, t.c.sequence) := SliceOf(o, r).value]
  }

  lemma RequestHasEffect(p: Parser, c: Conn, m: seq<byte>, at: nat)
    requires LogRequest(p, c, m, at).Some?
    ensures RequestEffect(Order(p, c), p, c, Placed(m, at, |c.mem|), LogRequest(p, c, m, at).value)
  {
  }

  lemma TableAfterRequest(c: Conn, rs: seq<Placed>, r: Placed)
    requires TableAgrees(c, rs) && r.msg != []
    ensures TableAgrees(Register(c, r.msg[0]), rs + [r])
  {
    var c' := Register(c, r.msg[0]);
    CarriesMore(rs, r);
    forall k <- c'.opcodes
      ensures exists n :: Carries(rs + [r], n, k) && (rs + [r])[n - 1].msg != [] && (rs + [r])[n - 1].msg[0] == c'.opcodes[k]
    {
      if k in c.opcodes {
        var n :| Carries(rs, n, k) && rs[n - 1].msg != [] && rs[n - 1].msg[0] == c.opcodes[k];
        assert Carries(rs + [r], n, k) && (rs + [r])[n - 1] == rs[n - 1];
      } else {
        assert Carries(rs + [r], |rs| + 1, k) && (rs + [r])[|rs|] == r;
      }
    }
  }

  lemma StashAfterMore(o: ByteOrder, k: nat, v: Slice, rs: seq<Placed>, r: Placed)
    requires StashAgrees(o, k, v, rs)
    ensures StashAgrees(o, k, v, rs + [r])
  {
    CarriesMore(rs, r);
    var n :| Carries(rs, n, k) && SliceOf(o, rs[n - 1]) == Some(v);
    assert Carries(rs + [r], n, k) && (rs + [r])[n - 1] == rs[n - 1];
  }

  lemma StashAfterRequest(o: ByteOrder, p: Parser, c: Conn, rs: seq<Placed>, r: Placed, t: Tracked, key: (nat, nat))
    requires RequestEffect(o, p, c, r, t) && c.sequence == |rs| % SEQ_MOD && key in t.p.stash && key.0 == c.id
    requires key in p.stash ==> StashAgrees(o, key.1, p.stash[key], rs)
    ensures StashAgrees(o, key.1, t.p.stash[key], rs + [r])
  {
    if key in p.stash {
      StashAfterMore(o, key.1, p.stash[key], rs, r);
    } else {
      CarriesMore(rs, r);
      assert Carries(rs + [r], |rs| + 1, key.1) && (rs + [r])[|rs|] == r;
    }
  }

  lemma RequestAgrees(p: Parser, s: System, es: seq<Event>, id: nat, m: seq<byte>, at: nat, t: Tracked)
    requires Agrees(p, s, es) && id in s.conns
    requires RequestEffect(Order(s.p, s.conns[id]), s.p, s.conns[id], Placed(m, at, |s.conns[id].mem|), t)
    ensures Agrees(p, s.(p := t.p, conns := s.conns[id := t.c]), es + [Request(id, m, at)])
  {
    var s', es' := s.(p := t.p, conns := s.conns[id := t.c]), es + [Request(id, m, at)];
    var rs, r := Requests(es, id), Placed(m, at, |s.conns[id].mem|);
    assert ConnAgrees(p, s, es, id);
    forall id' <- s'.conns ensures ConnAgrees(p, s', es', id') {
      AfterEvent(es, Request(id, m, at), id');
      if id' == id {
        TableAfterRequest(s.conns[id], rs, r);
      } else {
        assert ConnAgrees(p, s, es, id');
      }
    }
    forall key <- s'.p.stash ensures KeyAgrees(p, s', es', key) {
      AfterEvent(es, Request(id, m, at), key.0);
      assert key in s.p.stash ==> KeyAgrees(p, s, es, key);
      if key.0 == id {
        StashAfterRequest(OrderOf(p.host, SwapOf(es, id)), s.p, s.conns[id], rs, r, t, key);
      } else {
        assert key in s.p.stash;
      }
    }
    forall id': nat | id' !in s'.used ensures Requests(es', id') == [] {
      AfterEvent(es, Request(id, m, at), id');
    }
  }

  /** A response with number `k` leaves the numbering alone, and takes away at most what is held
      under that number for its own connection. */
  predicate ResponseEffect(p: Parser, c: Conn, k: nat, l: Logged) {
    && l.p.allowed == p.allowed && l.p.host == p.host
    && l.c == c.(opcodes := l.c.opcodes, extensions := l.c.extensions)
    && (l.c.opcodes == c.opcodes || l.c.opcodes == c.opcodes - {k})
    && (l.p.stash == p.stash || l.p.stash == p.stash - {(c.id, k)})
  }

  /** Before its number is closed. */
  predicate ParseEffect(p: Parser, c: Conn, k: nat, l: Logged) {
    && l.p.allowed == p.allowed && l.p.host == p.host && l.c == c.(extensions := l.c.extensions)
    && (l.p.stash == p.stash || l.p.stash == p.stash - {(c.id, k)})
  }

  lemma InternHasEffect(p: Parser, c: Conn, o: ByteOrder, m: seq<byte>)
    requires |m| >= RESPONSE_SZ && LogInternAtomReply(p, c, o, m).Some?
    ensures ParseEffect(p, c, U16(o, m, 2), LogInternAtomReply(p, c, o, m).value)
  {
  }

  lemma QueryHasEffect(p: Parser, c: Conn, o: ByteOrder, m: seq<byte>)
    requires |m| >= RESPONSE_SZ && LogQueryExtensionReply(p, c, o, m).Some?
    ensures ParseEffect(p, c, U16(o, m, 2), LogQueryExtensionReply(p, c, o, m).value)
  {
  }

  lemma ParseHasEffect(p: Parser, c: Conn, o: ByteOrder, m: seq<byte>, op: byte)
    requires |m| >= RESPONSE_SZ && ParseReply(p, c, o, m, op).Some?
    ensures ParseEffect(p, c, U16(o, m, 2), ParseReply(p, c, o, m, op).value)
  {
    if op == INTERN_ATOM {
      InternHasEffect(p, c, o, m);
    } else if op == QUERY_EXTENSION {
      QueryHasEffect(p, c, o, m);
    }
  }

  lemma ReplyHasEffect(p: Parser, c: Conn, m: seq<byte>)
    requires |m| >= RESPONSE_SZ && m[0] == REPLY_PREFIX && LogReply(p, c, m).Some?
    ensures ResponseEffect(p, c, U16(Order(p, c), m, 2), LogReply(p, c, m).value)
  {
    var o := Order(p, c);
    ParseHasEffect(p, c, o, m, c.opcodes[U16(o, m, 2)]);
  }

  lemma ResponseHasEffect(p: Parser, c: Conn, m: seq<byte>)
    requires LogResponse(p, c, m).Some?
    ensures ResponseEffect(p, c, U16(Order(p, c), m, 2), LogResponse(p, c, m).value)
  {
    if m[0] == REPLY_PREFIX {
      ReplyHasEffect(p, c, m);
    }
  }

  lemma ResponseAgrees(p: Parser, s: System, es: seq<Event>, id: nat, m: seq<byte>, k: nat, l: Logged)
    requires Agrees(p, s, es) && id in s.conns && ResponseEffect(s.p, s.conns[id], k, l)
    ensures Agrees(p, s.(p := l.p, conns := s.conns[id := l.c]), es + [Response(id, m)])
  {
    var s', es' := s.(p := l.p, conns := s.conns[id := l.c]), es + [Response(id, m)];
    forall id' <- s'.conns ensures ConnAgrees(p, s', es', id') {
      AfterEvent(es, Response(id, m), id');
      assert ConnAgrees(p, s, es, id');
    }
    forall key <- s'.p.stash ensures KeyAgrees(p, s', es', key) {
      AfterEvent(es, Response(id, m), key.0);
      assert KeyAgrees(p, s, es, key);
    }
    forall id': nat | id' !in s'.used ensures Requests(es', id') == [] {
      AfterEvent(es, Response(id, m), id');
    }
  }

  lemma EstablishedAgrees(p: Parser, s: System, es: seq<Event>, id: nat, byteswap: bool, mem: seq<byte>)
    requires Agrees(p, s, es) && id !in s.used
    ensures Agrees(p, s.(conns := s.conns[id := NewConn(id, byteswap, mem).(status := Open)], used := s.used + {id}),
                   es + [Established(id, byteswap, mem)])
  {
    var e := Established(id, byteswap, mem);
    var s' := s.(conns := s.conns[id := NewConn(id, byteswap, mem).(status := Open)], used := s.used + {id});
    assert Requests(es, id) == [];
    forall id' <- s'.conns ensures ConnAgrees(p, s', es + [e], id') {
      AfterEvent(es, e, id');
      assert id' != id ==> ConnAgrees(p, s, es, id');
    }
    forall key <- s'.p.stash ensures KeyAgrees(p, s', es + [e], key) {
      AfterEvent(es, e, key.0);
      assert KeyAgrees(p, s, es, key);
    }
    forall id': nat | id' !in s'.used ensures Requests(es + [e], id') == [] {
      AfterEvent(es, e, id');
    }
  }

  lemma ReceivedAgrees(p: Parser, s: System, es: seq<Event>, id: nat, mem: seq<byte>)
    requires Agrees(p, s, es) && id in s.conns
    ensures Agrees(p, s.(conns := s.conns[id := s.conns[id].(mem := mem)]), es + [Received(id, mem)])
  {
    var e, s' := Received(id, mem), s.(conns := s.conns[id := s.conns[id].(mem := mem)]);
    forall id' <- s'.conns ensures ConnAgrees(p, s', es + [e], id') {
      AfterEvent(es, e, id');
      assert ConnAgrees(p, s, es, id');
    }
    forall key <- s'.p.stash ensures KeyAgrees(p, s', es + [e], key) {
      AfterEvent(es, e, key.0);
      assert KeyAgrees(p, s, es, key);
    }
    forall id': nat | id' !in s'.used ensures Requests(es + [e], id') == [] {
      AfterEvent(es, e, id');
    }
  }

  lemma GoneAgrees(p: Parser, s: System, es: seq<Event>, id: nat)
    requires Agrees(p, s, es)
    ensures Agrees(p, s.(conns := s.conns - {id}), es + [Gone(id)])
  {
    var s', es' := s.(conns := s.conns - {id}), es + [Gone(id)];
    forall id': nat ensures Requests(es', id') == Requests(es, id') && SwapOf(es', id') == SwapOf(es, id') {
      AfterEvent(es, Gone(id), id');
    }
    forall id' <- s'.conns ensures ConnAgrees(p, s', es', id') {
      AfterEvent(es, Gone(id), id');
      assert ConnAgrees(p, s, es, id');
    }
    forall key <- s'.p.stash ensures KeyAgrees(p, s', es', key) {
      assert KeyAgrees(p, s, es, key);
    }
  }

  lemma StepAgrees(p: Parser, s: System, es: seq<Event>, e: Event)
    requires Agrees(p, s, es) && Step(s, e).Some?
    ensures Agrees(p, Step(s, e).value, es + [e])
  {
    match e
    case Request(id, m, at) =>
      RequestHasEffect(s.p, s.conns[id], m, at);
      RequestAgrees(p, s, es, id, m, at, LogRequest(s.p, s.conns[id], m, at).value);
    case Response(id, m) =>
      ResponseHasEffect(s.p, s.conns[id], m);
      ResponseAgrees(p, s, es, id, m, U16(Order(s.p, s.conns[id]), m, 2), LogResponse(s.p, s.conns[id], m).value);
    case Established(id, byteswap, mem) => EstablishedAgrees(p, s, es, id, byteswap, mem);
    case Received(id, mem) => ReceivedAgrees(p, s, es, id, mem);
    case Gone(id) => GoneAgrees(p, s, es, id);
  }

  lemma {:induction false} RunAgrees(p: Parser, es: seq<Event>)
    requires Fresh(p) && Run(Start(p), es).Some?
    ensures Agrees(p, Run(Start(p), es).value, es)
    decreases |es|
  {
    if es != [] {
      var before := es[..|es| - 1];
      RunAgrees(p, before);
      StepAgrees(p, Run(Start(p), before).value, before, es[|es| - 1]);
      assert before + [es[|es| - 1]] == es;
    }
  }

  /** Among the first 65,536 requests of a connection no number is used twice. */
  lemma NumbersUnique(rs: seq<Placed>, n: nat, n': nat, k: nat)
    requires |rs| <= SEQ_MOD && Carries(rs, n, k) && Carries(rs, n', k)
    ensures n == n'
  {
  }

  lemma OnlyOneCarries(rs: seq<Placed>, n: nat, k: nat)
    requires |rs| <= SEQ_MOD && Carries(rs, n, k)
    ensures forall n' :: Carries(rs, n', k) ==> n' == n
  {
    forall n' | Carries(rs, n', k) ensures n' == n {
      NumbersUnique(rs, n, n', k);
    }
  }

  // ---- replies are attributed to their own requests ----

  /** A response that is logged at all, in the state that the run `es` leads to. */
  ghost predicate Answers(p: Parser, es: seq<Event>, id: nat, m: seq<byte>) {
    && Fresh(p) && Run(Start(p), es).Some?
    && var s := Run(Start(p), es).value;
      id in s.conns && LogResponse(s.p, s.conns[id], m).Some?
  }

  ghost function Answer(p: Parser, es: seq<Event>, id: nat, m: seq<byte>): Logged
    requires Answers(p, es, id, m)
  {
    var s := Run(Start(p), es).value;
    LogResponse(s.p, s.conns[id], m).value
  }

  ghost function OrderAfter(p: Parser, es: seq<Event>, id: nat): ByteOrder { OrderOf(p.host, SwapOf(es, id)) }

  /** Within the first 65,536 requests, number `k` stands for one request: the table entry and the
      stashed view under it are that request's. */
  lemma NumberFindsItsRequest(o: ByteOrder, c: Conn, rs: seq<Placed>, n: nat, k: nat)
    requires TableAgrees(c, rs) && |rs| <= SEQ_MOD && Carries(rs, n, k)
    ensures k in c.opcodes ==> rs[n - 1].msg != [] && c.opcodes[k] == rs[n - 1].msg[0]
    ensures forall v :: StashAgrees(o, k, v, rs) ==> SliceOf(o, rs[n - 1]) == Some(v)
  {
    OnlyOneCarries(rs, n, k);
  }

  /** A reply within the first 65,536 requests is handled as the reply to the request that carries its
      number, and a stashed view under the number is into the place where that request's string was. */
  lemma ReplyFindsItsRequest(p: Parser, es: seq<Event>, id: nat, m: seq<byte>, n: nat)
    requires Answers(p, es, id, m) && m[0] == REPLY_PREFIX
    requires |Requests(es, id)| <= SEQ_MOD
    requires Carries(Requests(es, id), n, U16(OrderAfter(p, es, id), m, 2))
    ensures var s := Run(Start(p), es).value; var k := U16(OrderAfter(p, es, id), m, 2); var r := Requests(es, id)[n - 1];
      && k in s.conns[id].opcodes && r.msg != [] && s.conns[id].opcodes[k] == r.msg[0]
      && ((id, k) in s.p.stash ==> SliceOf(OrderAfter(p, es, id), r) == Some(s.p.stash[(id, k)]))
  {
    RunAgrees(p, es);
    var s := Run(Start(p), es).value;
    NumberFindsItsRequest(OrderAfter(p, es, id), s.conns[id], Requests(es, id), n, U16(OrderAfter(p, es, id), m, 2));
  }

  // ---- what the filter decides by ----

  /** The name that the reply to request `r` is judged by: what is now at the place in the client's buffer
      where the request's string was. */
  ghost function NameNow(p: Parser, es: seq<Event>, id: nat, r: Placed): Option<Name> {
    var v := SliceOf(OrderAfter(p, es, id), r);
    if v.None? then None else Spelled(MemOf(es, id), v.value)
  }

  /** However connections interleave, within the first 65,536 requests the reply to a QueryExtension
      request leaves with `present` cleared if and only if the bytes now at the place where the request's
      string was spell a denied name; otherwise it leaves as it came. */
  lemma FilterReadsThePlace(p: Parser, es: seq<Event>, id: nat, m: seq<byte>, n: nat)
    requires Answers(p, es, id, m) && m[0] == REPLY_PREFIX
    requires |Requests(es, id)| <= SEQ_MOD
    requires Carries(Requests(es, id), n, U16(OrderAfter(p, es, id), m, 2))
    requires Requests(es, id)[n - 1].msg != [] && Requests(es, id)[n - 1].msg[0] == QUERY_EXTENSION
    ensures var now := NameNow(p, es, id, Requests(es, id)[n - 1]);
      now.Some? && Answer(p, es, id, m).out == if now.value in p.allowed then m else m[8 := 0]
  {
    RunAgrees(p, es);
    ReplyFindsItsRequest(p, es, id, m, n);
    assert ConnAgrees(p, Run(Start(p), es).value, es, id);
  }

  /** Nothing has been read from the client since event `i`. */
  predicate Unread(es: seq<Event>, i: nat, id: nat) {
    forall j :: i < j < |es| ==> !(es[j].Received? && es[j].id == id)
  }

  /** The request that is event `i`, as `Requests` lists it. */
  function PlacedAt(es: seq<Event>, i: nat): Placed
    requires i < |es| && es[i].Request?
  {
    Placed(es[i].msg, es[i].at, |MemOf(es[..i], es[i].id)|)
  }

  lemma {:induction false} RequestsPrefix(es: seq<Event>, i: nat, id: nat)
    requires i <= |es|
    ensures Requests(es[..i], id) <= Requests(es, id)
    decreases |es|
  {
    if i < |es| {
      RequestsPrefix(es[..|es| - 1], i, id);
      assert es[..|es| - 1][..i] == es[..i];
    } else {
      assert es[..i] == es;
    }
  }

  lemma ListedAt(es: seq<Event>, i: nat)
    requires i < |es| && es[i].Request?
    ensures var id := es[i].id; var n := |Requests(es[..i], id)|;
      n < |Requests(es, id)| && Requests(es, id)[n] == PlacedAt(es, i)
  {
    var id := es[i].id;
    assert es[..i + 1] == es[..i] + [es[i]];
    AfterEvent(es[..i], es[i], id);
    RequestsPrefix(es, i + 1, id);
  }

  /** As long as nothing is read from its client, a request stays where it was logged. */
  lemma {:induction false} UnreadStays(p: Parser, es: seq<Event>, i: nat)
    requires Fresh(p) && Run(Start(p), es).Some? && i < |es| && es[i].Request? && Unread(es, i, es[i].id)
    ensures MemOf(es, es[i].id) == MemOf(es[..i], es[i].id) && Contains(MemOf(es, es[i].id), es[i].at, es[i].msg)
    ensures es[i].id in Run(Start(p), es).value.used
    decreases |es|
  {
    var id, before := es[i].id, es[..|es| - 1];
    RunAgrees(p, before);
    if i == |es| - 1 {
      assert ConnAgrees(p, Run(Start(p), before).value, before, id);
    } else {
      assert before[..i] == es[..i] && before[i] == es[i];
      UnreadStays(p, before, i);
    }
  }

  /** ... so its string is still its own. */
  lemma UnreadNameIsItsOwn(p: Parser, es: seq<Event>, i: nat)
    requires Fresh(p) && Run(Start(p), es).Some? && i < |es| && es[i].Request? && Unread(es, i, es[i].id)
    ensures NameNow(p, es, es[i].id, PlacedAt(es, i)) == NameIn(OrderAfter(p, es, es[i].id), es[i].msg)
  {
    UnreadStays(p, es, i);
    PlaceSpellsName(OrderAfter(p, es, es[i].id), PlacedAt(es, i), MemOf(es, es[i].id));
  }

  lemma PlaceSpellsName(o: ByteOrder, r: Placed, mem: seq<byte>)
    requires Contains(mem, r.at, r.msg) && |mem| == r.room
    ensures SliceOf(o, r).Some? == NameIn(o, r.msg).Some?
    ensures SliceOf(o, r).Some? ==> Spelled(mem, SliceOf(o, r).value) == NameIn(o, r.msg)
  {
    if SliceOf(o, r).Some? {
      var place := NamePlace(o, r.msg).value;
      PartOfPart(mem, r.at, |r.msg|, place.0, place.1);
    }
  }

  lemma PartOfPart(s: seq<byte>, at: nat, n: nat, i: nat, k: nat)
    requires at + n <= |s| && i + k <= n
    ensures s[at + i..at + i + k] == s[at..at + n][i..i + k]
  {
    var whole, part := s[at..at + n], s[at + i..at + i + k];
    forall j | 0 <= j < k ensures part[j] == whole[i..i + k][j] {}
  }

  /** No client is told that a denied extension is present, if nothing is read from it between its
      QueryExtension request, event `i`, and the reply: the reply leaves with the flag cleared and nothing
      else changed, however connections interleave. */
  lemma DeniedIsReportedAbsent(p: Parser, es: seq<Event>, i: nat, m: seq<byte>, name: Name)
    requires i < |es| && es[i].Request? && Unread(es, i, es[i].id)
    requires var id := es[i].id;
      && Answers(p, es, id, m) && m[0] == REPLY_PREFIX && |Requests(es, id)| <= SEQ_MOD
      && (|Requests(es[..i], id)| + 1) % SEQ_MOD == U16(OrderAfter(p, es, id), m, 2)
    requires es[i].msg != [] && es[i].msg[0] == QUERY_EXTENSION
    requires NameIn(OrderAfter(p, es, es[i].id), es[i].msg) == Some(name) && name !in p.allowed
    ensures Answer(p, es, es[i].id, m).out == m[8 := 0]
  {
    ListedAt(es, i);
    UnreadNameIsItsOwn(p, es, i);
    FilterReadsThePlace(p, es, es[i].id, m, |Requests(es[..i], es[i].id)| + 1);
  }

  /** The only byte the relay ever changes is the `present` flag of a reply it takes for the answer to
      a QueryExtension request, and only when the stashed view now spells a denied name. */
  lemma OnlyThePresentFlagChanges(p: Parser, c: Conn, m: seq<byte>)
    requires LogResponse(p, c, m).Some?
    ensures var l := LogResponse(p, c, m).value; var k := U16(Order(p, c), m, 2);
      l.out == if m[0] == REPLY_PREFIX && FilterApplies(p, c, k) then m[8 := 0] else m
  {
  }

  predicate FilterApplies(p: Parser, c: Conn, k: nat) {
    && k in c.opcodes && c.opcodes[k] == QUERY_EXTENSION && (c.id, k) in p.stash
    && var now := Spelled(c.mem, p.stash[(c.id, k)]); now.Some? && now.value !in p.allowed
  }

  // ---- which opcodes are parsed ----

  /** The opcode table after a response: the opcode that a reply to a query announces is added under the name
      that the stashed view now spells, if that is allowed and the opcode is not taken. */
  function MajorsAfter(p: Parser, c: Conn, m: seq<byte>): map<byte, Name>
    requires |m| >= RESPONSE_SZ
  {
    var key := (c.id, U16(Order(p, c), m, 2));
    if m[0] == REPLY_PREFIX && key.1 in c.opcodes && c.opcodes[key.1] == QUERY_EXTENSION
       && key in p.stash && Spelled(c.mem, p.stash[key]).Some?
    then Registered(p.majors, p.allowed, m, Spelled(c.mem, p.stash[key]).value)
    else p.majors
  }

  function Registered(majors: map<byte, Name>, allowed: set<Name>, m: seq<byte>, name: Name): map<byte, Name>
    requires |m| >= RESPONSE_SZ
  {
    if name in allowed && m[8] != 0 && !IsCore(m[9]) && m[9] !in majors then majors[m[9] := name] else majors
  }

  lemma ResponseRegisters(p: Parser, c: Conn, m: seq<byte>)
    requires LogResponse(p, c, m).Some?
    ensures |m| >= RESPONSE_SZ && LogResponse(p, c, m).value.p.majors == MajorsAfter(p, c, m)
  {
  }

  /** However connections interleave, within the first 65,536 requests the reply to a QueryExtension request
      registers the opcode it announces if and only if it says that the extension is present, the bytes now
      at the place where the request's string was spell an allowed name, and the opcode is neither a core one
      nor taken; it registers it under that name, and changes no other opcode. */
  lemma ReplyRegisters(p: Parser, es: seq<Event>, id: nat, m: seq<byte>, n: nat)
    requires Answers(p, es, id, m) && m[0] == REPLY_PREFIX
    requires |Requests(es, id)| <= SEQ_MOD
    requires Carries(Requests(es, id), n, U16(OrderAfter(p, es, id), m, 2))
    requires Requests(es, id)[n - 1].msg != [] && Requests(es, id)[n - 1].msg[0] == QUERY_EXTENSION
    ensures var now := NameNow(p, es, id, Requests(es, id)[n - 1]); var majors := Run(Start(p), es).value.p.majors;
      now.Some? && Answer(p, es, id, m).p.majors
        == if now.value in p.allowed && m[8] != 0 && !IsCore(m[9]) && m[9] !in majors then majors[m[9] := now.value] else majors
  {
    var s := Run(Start(p), es).value;
    RunAgrees(p, es);
    ReplyFindsItsRequest(p, es, id, m, n);
    assert ConnAgrees(p, s, es, id);
    ResponseRegisters(s.p, s.conns[id], m);
  }

  /** ... so the reply about a denied extension registers nothing, if nothing is read from the client between
      the query, event `i`, and the reply. */
  lemma DeniedIsNotRegistered(p: Parser, es: seq<Event>, i: nat, m: seq<byte>, name: Name)
    requires i < |es| && es[i].Request? && Unread(es, i, es[i].id)
    requires var id := es[i].id;
      && Answers(p, es, id, m) && m[0] == REPLY_PREFIX && |Requests(es, id)| <= SEQ_MOD
      && (|Requests(es[..i], id)| + 1) % SEQ_MOD == U16(OrderAfter(p, es, id), m, 2)
    requires es[i].msg != [] && es[i].msg[0] == QUERY_EXTENSION
    requires NameIn(OrderAfter(p, es, es[i].id), es[i].msg) == Some(name) && name !in p.allowed
    ensures Answer(p, es, es[i].id, m).p.majors == Run(Start(p), es).value.p.majors
  {
    ListedAt(es, i);
    UnreadNameIsItsOwn(p, es, i);
    ReplyRegisters(p, es, es[i].id, m, |Requests(es[..i], es[i].id)| + 1);
  }

  /** Event `i` is a reply to a query that announces `op`, when the view stashed for the query spells `name`. */
  ghost predicate AnnouncedAt(p: Parser, es: seq<Event>, i: nat, op: byte, name: Name) {
    && i < |es| && es[i].Response? && Answers(p, es[..i], es[i].id, es[i].msg) && |es[i].msg| >= RESPONSE_SZ
    && var s := Run(Start(p), es[..i]).value; var c := s.conns[es[i].id]; var m := es[i].msg;
      var key := (c.id, U16(Order(s.p, c), m, 2));
      && m[0] == REPLY_PREFIX && m[8] != 0 && m[9] == op && key.1 in c.opcodes && c.opcodes[key.1] == QUERY_EXTENSION
      && key in s.p.stash && Spelled(c.mem, s.p.stash[key]) == Some(name)
  }

  ghost predicate WasAnnounced(p: Parser, es: seq<Event>, op: byte, name: Name) {
    exists i: nat :: AnnouncedAt(p, es, i, op, name)
  }

  lemma AnnouncedEarlier(p: Parser, es: seq<Event>, op: byte, name: Name)
    requires es != [] && WasAnnounced(p, es[..|es| - 1], op, name)
    ensures WasAnnounced(p, es, op, name)
  {
    var before := es[..|es| - 1];
    var i: nat :| AnnouncedAt(p, before, i, op, name);
    assert es[..i] == before[..i];
    assert AnnouncedAt(p, es, i, op, name);
  }

  lemma EventRegisters(p: Parser, es: seq<Event>, op: byte)
    requires Fresh(p) && es != [] && Run(Start(p), es).Some?
    requires var s, s' := Run(Start(p), es[..|es| - 1]).value, Run(Start(p), es).value;
      op in s'.p.majors && !(op in s.p.majors && s.p.majors[op] == s'.p.majors[op])
    ensures var s' := Run(Start(p), es).value;
      WasAnnounced(p, es, op, s'.p.majors[op]) && s'.p.majors[op] in Run(Start(p), es[..|es| - 1]).value.p.allowed && !IsCore(op)
  {
    var last := |es| - 1;
    var s, e := Run(Start(p), es[..last]).value, es[last];
    match e
    case Request(id, m, at) => RequestHasEffect(s.p, s.conns[id], m, at);
    case Response(id, m) =>
      ResponseRegisters(s.p, s.conns[id], m);
      assert AnnouncedAt(p, es, last, op, Run(Start(p), es).value.p.majors[op]);
    case Established(_, _, _) =>
    case Received(_, _) =>
    case Gone(_) =>
  }

  /** No denied name ever enters the opcode table, nor does a core opcode; and every opcode in it was announced
      by a reply to a query while the view stashed for that query spelled the name it is held under. */
  lemma {:induction false} DeniedIsNeverParsed(p: Parser, es: seq<Event>)
    requires Fresh(p) && Run(Start(p), es).Some?
    ensures var s := Run(Start(p), es).value;
      s.p.allowed == p.allowed
      && forall op <- s.p.majors :: s.p.majors[op] in p.allowed && !IsCore(op) && WasAnnounced(p, es, op, s.p.majors[op])
    decreases |es|
  {
    if es != [] {
      var before := es[..|es| - 1];
      DeniedIsNeverParsed(p, before);
      RunAgrees(p, es);
      var s, s' := Run(Start(p), before).value, Run(Start(p), es).value;
      forall op <- s'.p.majors
        ensures s'.p.majors[op] in p.allowed && !IsCore(op) && WasAnnounced(p, es, op, s'.p.majors[op])
      {
        if op in s.p.majors && s.p.majors[op] == s'.p.majors[op] {
          AnnouncedEarlier(p, es, op, s.p.majors[op]);
        } else {
          EventRegisters(p, es, op);
        }
      }
    }
  }

  /** Nothing answers number `k` of connection `id`, and the connection stays. */
  ghost predicate Undisturbed(o: ByteOrder, es: seq<Event>, id: nat, k: nat) {
    forall e <- es :: (e.Response? && e.id == id ==> |e.msg| < RESPONSE_SZ || U16(o, e.msg, 2) != k) && e != Gone(id)
  }

  /** Connection `id` holds number `k` for opcode `op`, and the stash holds `v` under it. */
  ghost predicate Holds(s: System, o: ByteOrder, id: nat, k: nat, op: byte, v: Slice) {
    && id in s.conns && id in s.used && s.conns[id].id == id && Order(s.p, s.conns[id]) == o
    && k in s.conns[id].opcodes && s.conns[id].opcodes[k] == op
    && (id, k) in s.p.stash && s.p.stash[(id, k)] == v
  }

  lemma StepHolds(s: System, o: ByteOrder, e: Event, id: nat, k: nat, op: byte, v: Slice)
    requires Holds(s, o, id, k, op, v) && Step(s, e).Some? && Undisturbed(o, [e], id, k)
    requires forall i <- s.conns :: s.conns[i].id == i
    ensures Holds(Step(s, e).value, o, id, k, op, v) && Step(s, e).value.p.allowed == s.p.allowed
    ensures forall i <- Step(s, e).value.conns :: Step(s, e).value.conns[i].id == i
  {
    assert e in [e];
    match e
    case Request(i, m, at) => RequestHasEffect(s.p, s.conns[i], m, at);
    case Response(i, m) => ResponseHasEffect(s.p, s.conns[i], m);
    case Established(_, _, _) =>
    case Received(_, _) =>
    case Gone(_) =>
  }

  lemma {:induction false} RunHolds(s: System, o: ByteOrder, es: seq<Event>, id: nat, k: nat, op: byte, v: Slice)
    requires Holds(s, o, id, k, op, v) && Run(s, es).Some? && Undisturbed(o, es, id, k)
    requires forall i <- s.conns :: s.conns[i].id == i
    ensures Holds(Run(s, es).value, o, id, k, op, v) && Run(s, es).value.p.allowed == s.p.allowed
    ensures forall i <- Run(s, es).value.conns :: Run(s, es).value.conns[i].id == i
    decreases |es|
  {
    if es != [] {
      var before, e := es[..|es| - 1], es[|es| - 1];
      RunHolds(s, o, before, id, k, op, v);
      assert e in es;
      StepHolds(Run(s, before).value, o, e, id, k, op, v);
    }
  }

  /** With no limit on the number of requests, and whatever happens until its reply comes: the reply to a
      QueryExtension request leaves with a set `present` flag cleared if and only if the number's slot was
      free, or held by another QueryExtension, when the request was numbered, and the bytes now at the
      place where its string was spell a denied name. */
  lemma FilterIsExact(s: System, id: nat, q: seq<byte>, at: nat, es: seq<Event>, m: seq<byte>)
    requires id in s.conns && id in s.used && forall i <- s.conns :: s.conns[i].id == i
    requires Step(s, Request(id, q, at)).Some? && q[0] == QUERY_EXTENSION
    requires Undisturbed(Order(s.p, s.conns[id]), es, id, Next(s.conns[id].sequence))
    requires var t := Step(s, Request(id, q, at)).value;
      && Run(t, es).Some? && id in Run(t, es).value.conns
      && LogResponse(Run(t, es).value.p, Run(t, es).value.conns[id], m).Some?
    requires m[0] == REPLY_PREFIX && m[8] != 0
    requires U16(Order(s.p, s.conns[id]), m, 2) == Next(s.conns[id].sequence)
    ensures var u := Run(Step(s, Request(id, q, at)).value, es).value; var k := Next(s.conns[id].sequence);
      var now := Spelled(u.conns[id].mem, NameSlice(Order(s.p, s.conns[id]), q, at, |s.conns[id].mem|));
      (LogResponse(u.p, u.conns[id], m).value.out[8] == 0) <==>
      (k !in s.conns[id].opcodes || s.conns[id].opcodes[k] == QUERY_EXTENSION) && now.Some? && now.value !in s.p.allowed
  {
    var c, o, k := s.conns[id], Order(s.p, s.conns[id]), Next(s.conns[id].sequence);
    var t := Step(s, Request(id, q, at)).value;
    var op := if k in c.opcodes then c.opcodes[k] else QUERY_EXTENSION;
    RunHolds(t, o, es, id, k, op, NameSlice(o, q, at, |c.mem|));
    var u := Run(t, es).value;
    OnlyThePresentFlagChanges(u.p, u.conns[id], m);
  }
}
