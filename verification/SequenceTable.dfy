/**
 The table of open requests after any run, what a full turn of the 16-bit numbers does to it, and the
 reply series of ListFontsWithInfo.
 */
module SequenceTable {
  import opened Bytes
  import opened Wire
  import opened Tracking
  import opened Histories

  /** The `i`-th event is the request of connection `id` that is given number `k`. */
  predicate Numbered(es: seq<Event>, i: nat, id: nat, k: nat) {
    i < |es| && es[i].Request? && es[i].id == id && (|Requests(es[..i], id)| + 1) % SEQ_MOD == k
  }

  /** The response `m` answers number `k` for good, by its bytes and the opcode of the request it answers: an
      error does, and a reply, but for one of a series (ListFontsWithInfo is 50) that still has a name. */
  predicate AnswersForGood(o: ByteOrder, opcodes: map<nat, byte>, m: seq<byte>, k: nat) {
    && |m| >= 32 && U16(o, m, 2) == k
    && (m[0] == 0 || (m[0] == 1 && k in opcodes && (opcodes[k] != 50 || m[1] == 0)))
  }

  /** The `i`-th event is a response of connection `id` that answers number `k` for good. */
  ghost predicate ClosedAt(p: Parser, es: seq<Event>, i: nat, id: nat, k: nat) {
    && i < |es| && es[i].Response? && es[i].id == id
    && Run(Start(p), es[..i]).Some? && id in Run(Start(p), es[..i]).value.conns
    && var s := Run(Start(p), es[..i]).value;
      AnswersForGood(Order(s.p, s.conns[id]), s.conns[id].opcodes, es[i].msg, k)
  }

  /** Every earlier request with that number has been closed before event `i`. */
  ghost predicate ClosedBefore(p: Parser, es: seq<Event>, i: nat, id: nat, k: nat) {
    forall j: nat :: j < i && Numbered(es, j, id, k) ==> exists r: nat :: j < r < i && ClosedAt(p, es, r, id, k)
  }

  /** The earliest request numbered `k` since `k` was last closed. */
  ghost predicate Earliest(p: Parser, es: seq<Event>, i: nat, id: nat, k: nat) {
    && Numbered(es, i, id, k) && es[i].msg != [] && ClosedBefore(p, es, i, id, k)
    && forall r: nat :: i < r < |es| ==> !ClosedAt(p, es, r, id, k)
  }

  lemma NumberedIsARequest(es: seq<Event>, i: nat, id: nat, k: nat)
    requires Numbered(es, i, id, k)
    ensures Requests(es, id) != []
  {
    RequestsPrefix(es, i + 1, id);
    assert es[..i + 1] == es[..i] + [es[i]];
    AfterEvent(es[..i], es[i], id);
  }

  lemma SamePast(p: Parser, es: seq<Event>, e: Event, id: nat, k: nat)
    ensures forall i: nat :: i < |es| ==> Numbered(es + [e], i, id, k) == Numbered(es, i, id, k)
    ensures forall i: nat :: i < |es| ==> ClosedAt(p, es + [e], i, id, k) == ClosedAt(p, es, i, id, k)
    ensures forall i: nat :: i <= |es| ==> ClosedBefore(p, es + [e], i, id, k) == ClosedBefore(p, es, i, id, k)
  {
    forall i: nat | i < |es| ensures (es + [e])[..i] == es[..i] {}
  }

  /** After a response a number is gone from the table if and only if it was not there, or the response has
      answered it for good; the others keep their opcodes. An event changes nothing. */
  lemma ResponseFrees(p: Parser, c: Conn, m: seq<byte>)
    requires LogResponse(p, c, m).Some?
    ensures var c' := LogResponse(p, c, m).value.c;
      && (forall k :: k in c'.opcodes <==> k in c.opcodes && !AnswersForGood(Order(p, c), c.opcodes, m, k))
      && (forall k <- c'.opcodes :: c'.opcodes[k] == c.opcodes[k])
      && (m[0] != 0 && m[0] != 1 ==> c'.opcodes == c.opcodes)
  {
    ResponseHasEffect(p, c, m);
    var c' := LogResponse(p, c, m).value.c;
    assert m[0] == 1 ==> U16(Order(p, c), m, 2) in c.opcodes;
  }

  /** The invariant behind `TableIsEarliest`, with the request that owns the entry as witness. */
  ghost predicate Owned(p: Parser, es: seq<Event>, c: Conn, id: nat, k: nat, i: nat) {
    if k in c.opcodes then Earliest(p, es, i, id, k) && c.opcodes[k] == es[i].msg[0]
    else ClosedBefore(p, es, |es|, id, k)
  }

  lemma OwnedStays(p: Parser, es: seq<Event>, e: Event, c: Conn, c': Conn, id: nat, k: nat, i: nat)
    requires Owned(p, es, c, id, k, i)
    requires k in c'.opcodes <==> k in c.opcodes
    requires k in c.opcodes ==> c'.opcodes[k] == c.opcodes[k]
    requires k !in c.opcodes ==> !Numbered(es + [e], |es|, id, k)
    requires !ClosedAt(p, es + [e], |es|, id, k)
    ensures Owned(p, es + [e], c', id, k, i)
  {
    SamePast(p, es, e, id, k);
    if k !in c.opcodes {
      forall j: nat | j < |es| + 1 && Numbered(es + [e], j, id, k)
        ensures exists r: nat :: j < r < |es| + 1 && ClosedAt(p, es + [e], r, id, k)
      {
        var r: nat :| j < r < |es| && ClosedAt(p, es, r, id, k);
        assert ClosedAt(p, es + [e], r, id, k);
      }
    }
  }

  lemma OwnedByRequest(p: Parser, es: seq<Event>, c: Conn, id: nat, k: nat, i: nat, m: seq<byte>, at: nat)
    returns (i': nat)
    requires Owned(p, es, c, id, k, i) && m != [] && c.sequence == |Requests(es, id)| % SEQ_MOD
    ensures Owned(p, es + [Request(id, m, at)], Register(c, m[0]), id, k, i')
  {
    var e := Request(id, m, at);
    assert (es + [e])[..|es|] == es;
    assert Next(c.sequence) == (|Requests(es, id)| + 1) % SEQ_MOD;
    SamePast(p, es, e, id, k);
    if k == Next(c.sequence) && k !in c.opcodes {
      i' := |es|;
      assert Earliest(p, es + [e], i', id, k);
    } else {
      i' := i;
      OwnedStays(p, es, e, c, Register(c, m[0]), id, k, i);
    }
  }

  lemma OwnedByResponse(p: Parser, es: seq<Event>, s: System, id: nat, k: nat, i: nat, m: seq<byte>)
    requires Run(Start(p), es) == Some(s) && id in s.conns && LogResponse(s.p, s.conns[id], m).Some?
    requires Owned(p, es, s.conns[id], id, k, i)
    ensures Owned(p, es + [Response(id, m)], LogResponse(s.p, s.conns[id], m).value.c, id, k, i)
  {
    var e, c := Response(id, m), s.conns[id];
    var c' := LogResponse(s.p, c, m).value.c;
    assert (es + [e])[..|es|] == es;
    ResponseFrees(s.p, c, m);
    SamePast(p, es, e, id, k);
    if AnswersForGood(Order(s.p, c), c.opcodes, m, k) {
      assert ClosedAt(p, es + [e], |es|, id, k);
    } else {
      OwnedStays(p, es, e, c, c', id, k, i);
    }
  }

  lemma {:induction false} FindOwner(p: Parser, es: seq<Event>, id: nat, k: nat) returns (i: nat)
    requires Fresh(p) && Run(Start(p), es).Some? && id in Run(Start(p), es).value.conns
    ensures Owned(p, es, Run(Start(p), es).value.conns[id], id, k, i)
    decreases |es|
  {
    var before, e := es[..|es| - 1], es[|es| - 1];
    assert es == before + [e];
    var s, s' := Run(Start(p), before).value, Run(Start(p), es).value;
    RunAgrees(p, before);
    if e.Established? && e.id == id {
      assert Requests(before, id) == [];
      AfterEvent(before, e, id);
      forall j: nat ensures !Numbered(es, j, id, k) {
        if Numbered(es, j, id, k) {
          NumberedIsARequest(es, j, id, k);
        }
      }
      i := 0;
    } else {
      assert id in s.conns && ConnAgrees(p, s, before, id);
      i := FindOwner(p, before, id, k);
      if e.Request? && e.id == id {
        RequestHasEffect(s.p, s.conns[id], e.msg, e.at);
        i := OwnedByRequest(p, before, s.conns[id], id, k, i, e.msg, e.at);
      } else if e.Response? && e.id == id {
        OwnedByResponse(p, before, s, id, k, i, e.msg);
      } else {
        OwnedStays(p, before, e, s.conns[id], s'.conns[id], id, k, i);
      }
    }
  }

  /** After any run the counter is the number of requests modulo 65,536, and the table holds under `k`
      the opcode of the earliest request numbered `k` since `k` was last closed, and nothing else. */
  lemma TableIsEarliest(p: Parser, es: seq<Event>, id: nat, k: nat)
    requires Fresh(p) && Run(Start(p), es).Some? && id in Run(Start(p), es).value.conns
    ensures var c := Run(Start(p), es).value.conns[id];
      && c.sequence == |Requests(es, id)| % SEQ_MOD
      && (k in c.opcodes <==> exists i: nat :: Earliest(p, es, i, id, k))
      && forall i: nat :: Earliest(p, es, i, id, k) ==> k in c.opcodes && c.opcodes[k] == es[i].msg[0]
  {
    RunAgrees(p, es);
    assert ConnAgrees(p, Run(Start(p), es).value, es, id);
    var i := FindOwner(p, es, id, k);
    var c := Run(Start(p), es).value.conns[id];
    forall j: nat | Earliest(p, es, j, id, k) ensures k in c.opcodes && j == i {
    }
  }

  /** Within the first 65,536 requests a number is given once. */
  lemma NumberedOnce(es: seq<Event>, i: nat, j: nat, id: nat, k: nat)
    requires |Requests(es, id)| <= SEQ_MOD && Numbered(es, i, id, k) && Numbered(es, j, id, k)
    ensures i == j
  {
    if i < j {
      NumberedLater(es, i, j, id, k);
    } else if j < i {
      NumberedLater(es, j, i, id, k);
    }
  }

  lemma OneMoreRequest(es: seq<Event>, i: nat, id: nat)
    requires i < |es| && es[i].Request? && es[i].id == id
    ensures |Requests(es[..i], id)| + 1 <= |Requests(es, id)|
  {
    assert es[..i + 1] == es[..i] + [es[i]];
    AfterEvent(es[..i], es[i], id);
    RequestsPrefix(es, i + 1, id);
  }

  lemma NumberedLater(es: seq<Event>, i: nat, j: nat, id: nat, k: nat)
    requires Numbered(es, i, id, k) && Numbered(es, j, id, k) && i < j
    ensures |Requests(es, id)| > SEQ_MOD
  {
    OneMoreRequest(es[..j], i, id);
    assert es[..j][..i] == es[..i];
    OneMoreRequest(es, j, id);
  }

  /** A request that has been answered is not found again, so its view is taken back at most once:
      any later reply with its number ends the process. */
  lemma AnsweredOnce(p: Parser, es: seq<Event>, i: nat, r: nat, id: nat, k: nat)
    requires Fresh(p) && Run(Start(p), es).Some? && id in Run(Start(p), es).value.conns
    requires |Requests(es, id)| <= SEQ_MOD
    requires Numbered(es, i, id, k) && i < r && ClosedAt(p, es, r, id, k)
    ensures k !in Run(Start(p), es).value.conns[id].opcodes
    ensures forall m | |m| >= RESPONSE_SZ && m[0] == REPLY_PREFIX && U16(OrderAfter(p, es, id), m, 2) == k ::
      LogResponse(Run(Start(p), es).value.p, Run(Start(p), es).value.conns[id], m).None?
  {
    TableIsEarliest(p, es, id, k);
    RunAgrees(p, es);
    assert ConnAgrees(p, Run(Start(p), es).value, es, id);
    forall j: nat ensures !Earliest(p, es, j, id, k) {
      if Numbered(es, j, id, k) {
        NumberedOnce(es, i, j, id, k);
      }
    }
  }

  /** A ListFontsWithInfo request keeps its number through the whole series: as long as no error and no
      reply with an empty name arrives for it, every further reply finds it. */
  lemma {:induction false} SeriesStaysOpen(s: System, es: seq<Event>, id: nat, k: nat)
    requires id in s.conns && id in s.used && k in s.conns[id].opcodes && s.conns[id].opcodes[k] == LIST_FONTS_WITH_INFO
    requires Run(s, es).Some?
    requires forall e <- es :: e != Gone(id)
    requires forall e <- es | e.Response? && e.id == id && |e.msg| >= RESPONSE_SZ ::
      U16(Order(s.p, s.conns[id]), e.msg, 2) == k ==> e.msg[0] != 0 && !(e.msg[0] == REPLY_PREFIX && e.msg[1] == 0)
    ensures var s' := Run(s, es).value;
      && id in s'.conns && id in s'.used && Order(s'.p, s'.conns[id]) == Order(s.p, s.conns[id])
      && k in s'.conns[id].opcodes && s'.conns[id].opcodes[k] == LIST_FONTS_WITH_INFO
    decreases |es|
  {
    if es != [] {
      var before, e := es[..|es| - 1], es[|es| - 1];
      assert forall x <- before :: x in es;
      SeriesStaysOpen(s, before, id, k);
      var t := Run(s, before).value;
      assert e in es;
      match e
      case Request(i, m, at) => RequestHasEffect(t.p, t.conns[i], m, at);
      case Response(i, m) =>
        ResponseHasEffect(t.p, t.conns[i], m);
        ResponseFrees(t.p, t.conns[i], m);
      case Established(_, _, _) =>
      case Received(_, _) =>
      case Gone(_) =>
    }
  }

  /** ... and the first error or reply with an empty name frees it: of all its responses, exactly that one. */
  lemma SeriesEnds(s: System, es: seq<Event>, id: nat, k: nat, m: seq<byte>)
    requires id in s.conns && id in s.used && k in s.conns[id].opcodes && s.conns[id].opcodes[k] == LIST_FONTS_WITH_INFO
    requires Run(s, es + [Response(id, m)]).Some?
    requires forall e <- es :: e != Gone(id)
    requires forall e <- es | e.Response? && e.id == id && |e.msg| >= RESPONSE_SZ ::
      U16(Order(s.p, s.conns[id]), e.msg, 2) == k ==> e.msg[0] != 0 && !(e.msg[0] == REPLY_PREFIX && e.msg[1] == 0)
    ensures |m| >= 32
    ensures id in Run(s, es + [Response(id, m)]).value.conns
    ensures k !in Run(s, es + [Response(id, m)]).value.conns[id].opcodes
      <==> U16(Order(s.p, s.conns[id]), m, 2) == k && (m[0] == 0 || (m[0] == 1 && m[1] == 0))
  {
    assert (es + [Response(id, m)])[..|es|] == es;
    SeriesStaysOpen(s, es, id, k);
    var t := Run(s, es).value;
    ResponseFrees(t.p, t.conns[id], m);
  }

  // ---- one full turn of the numbers ----

  /** A one-unit request of an opcode nobody answers, in least-significant-byte-first order. */
  const ONE_WAY: seq<byte> := [200, 0, 1, 0]
  /** QueryExtension for "X" */
  const QUERY_X: seq<byte> := [QUERY_EXTENSION, 0, 3, 0, 1, 0, 0, 0, 88, 0, 0, 0]
  const PRESENT_REPLY: seq<byte> := [1, 0, 1, 0, 0, 0, 0, 0, 1, 130] + seq(22, _ => 0)

  /** Both requests are in the client's buffer all the time. */
  const HELD: seq<byte> := ONE_WAY + QUERY_X

  function OneWays(n: nat): (es: seq<Event>)
    ensures |es| == n + 1
  {
    [Established(0, false, HELD)] + seq(n, _ => Request(0, ONE_WAY, 0))
  }

  /** Only one-way requests have been logged so far, `n` of them. */
  predicate OnlyOneWays(p: Parser, s: System, n: nat) {
    && s.p == p && s.conns.Keys == {0} == s.used
    && var c := s.conns[0];
      && c.id == 0 && !c.byteswap && c.sequence == n % SEQ_MOD && c.mem == HELD
      && (n > 0 ==> 1 in c.opcodes && c.opcodes[1] == 200)
      && (n == 0 ==> c.opcodes == map[])
  }

  lemma OneWayStep(p: Parser, s: System, n: nat)
    requires p.host == LsbFirst && OnlyOneWays(p, s, n)
    ensures Step(s, Request(0, ONE_WAY, 0)).Some? && OnlyOneWays(p, Step(s, Request(0, ONE_WAY, 0)).value, n + 1)
  {
    assert HELD[0..4] == ONE_WAY;
    assert U16(LsbFirst, ONE_WAY, 2) == 1;
    assert LogRequest(p, s.conns[0], ONE_WAY, 0) == Some(Tracked(p, Register(s.conns[0], 200)));
    assert Next(n % SEQ_MOD) == (n + 1) % SEQ_MOD;
  }

  lemma OneWaysGrow(n: nat)
    requires n > 0
    ensures OneWays(n) == OneWays(n - 1) + [Request(0, ONE_WAY, 0)]
  {
  }

  lemma MoreOneWays(p: Parser, es: seq<Event>, n: nat)
    requires p.host == LsbFirst && Run(Start(p), es).Some? && OnlyOneWays(p, Run(Start(p), es).value, n)
    ensures var es' := es + [Request(0, ONE_WAY, 0)];
      Run(Start(p), es').Some? && OnlyOneWays(p, Run(Start(p), es').value, n + 1)
  {
    OneWayStep(p, Run(Start(p), es).value, n);
    RunMore(Start(p), es, Request(0, ONE_WAY, 0));
  }

  lemma {:induction false} RunOneWays(p: Parser, n: nat)
    requires Fresh(p) && p.host == LsbFirst
    ensures Run(Start(p), OneWays(n)).Some? && OnlyOneWays(p, Run(Start(p), OneWays(n)).value, n)
  {
    if n == 0 {
      Opened(p);
    } else {
      RunOneWays(p, n - 1);
      RunOneMore(p, n);
    }
  }

  lemma RunOneMore(p: Parser, n: nat)
    requires p.host == LsbFirst && n > 0
    requires Run(Start(p), OneWays(n - 1)).Some? && OnlyOneWays(p, Run(Start(p), OneWays(n - 1)).value, n - 1)
    ensures Run(Start(p), OneWays(n)).Some? && OnlyOneWays(p, Run(Start(p), OneWays(n)).value, n)
  {
    OneWaysGrow(n);
    MoreOneWays(p, OneWays(n - 1), n - 1);
  }

  lemma Opened(p: Parser)
    ensures Run(Start(p), OneWays(0)).Some? && OnlyOneWays(p, Run(Start(p), OneWays(0)).value, 0)
  {
    RunMore(Start(p), [], Established(0, false, HELD));
    assert OneWays(0) == [] + [Established(0, false, HELD)];
  }

  lemma RunMore(s: System, es: seq<Event>, e: Event)
    requires Run(s, es).Some?
    ensures Run(s, es + [e]) == Step(Run(s, es).value, e)
  {
    assert (es + [e])[..|es|] == es;
  }

  /** The query is given number 1, which it does not get to hold. */
  lemma QueryStep(p: Parser, s: System)
    requires Fresh(p) && p.host == LsbFirst && OnlyOneWays(p, s, SEQ_MOD)
    ensures Step(s, Request(0, QUERY_X, 4)).Some?
    ensures var s' := Step(s, Request(0, QUERY_X, 4)).value;
      && s'.p.host == LsbFirst && s'.p.majors == map[] && 0 in s'.conns && !s'.conns[0].byteswap
      && 1 in s'.conns[0].opcodes && s'.conns[0].opcodes[1] == 200
  {
    assert HELD[4..16] == QUERY_X;
    assert U16(LsbFirst, QUERY_X, 2) == 3 && U16(LsbFirst, QUERY_X, 4) == 1;
  }

  lemma PresentPasses(p: Parser, c: Conn)
    requires p.host == LsbFirst && !c.byteswap && p.majors == map[] && 1 in c.opcodes && c.opcodes[1] == 200
    ensures LogResponse(p, c, PRESENT_REPLY).Some? && LogResponse(p, c, PRESENT_REPLY).value.out == PRESENT_REPLY
  {
    assert U16(LsbFirst, PRESENT_REPLY, 2) == 1 && U32(LsbFirst, PRESENT_REPLY, 4) == 0;
  }

  /** Beyond 65,536 requests the filter can miss even with every request still in its place: an unanswered
      request still holds number 1 when a QueryExtension request is given it, and the reply goes out with
      `present` set. */
  lemma FilterMissesAfterAFullTurn(p: Parser)
    requires Fresh(p) && p.host == LsbFirst && p.allowed == {}
    ensures var es := OneWays(SEQ_MOD) + [Request(0, QUERY_X, 4)];
      && |Requests(es, 0)| > SEQ_MOD
      && Answers(p, es, 0, PRESENT_REPLY) && Answer(p, es, 0, PRESENT_REPLY).out[8] == 1
  {
    RunOneWays(p, SEQ_MOD);
    var e, s := Request(0, QUERY_X, 4), Run(Start(p), OneWays(SEQ_MOD)).value;
    QueryStep(p, s);
    RunMore(Start(p), OneWays(SEQ_MOD), e);
    RequestsOfOneWays(SEQ_MOD);
    AfterEvent(OneWays(SEQ_MOD), e, 0);
    PresentPasses(Step(s, e).value.p, Step(s, e).value.conns[0]);
  }

  lemma {:induction false} RequestsOfOneWays(n: nat)
    ensures |Requests(OneWays(n), 0)| == n
  {
    if n == 0 {
      assert OneWays(0)[..0] == [];
    } else {
      RequestsOfOneWays(n - 1);
      OneWaysGrow(n);
      AfterEvent(OneWays(n - 1), Request(0, ONE_WAY, 0), 0);
    }
  }
}
