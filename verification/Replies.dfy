/**
 What one request and one response do to the tracking state, told by their bytes: which are taken, which views they
 stash and give back, and when a client may use extended lengths.
 */
module Replies {
  import opened Bytes
  import opened Wire
  import opened Tracking
  import opened Histories

  // ---- requests ----

  /** The string of an InternAtom (16) or QueryExtension (98) request as a client writes it. */
  function NameBody(o: ByteOrder, name: Name): (s: seq<byte>)
    requires |name| < 0x1_0000
    ensures |s| % 4 == 0 && |s| == 4 + Pad(|name|)
  {
    Enc16(o, |name|) + [0, 0] + name + seq(Pad(|name|) - |name|, _ => 0)
  }

  lemma NameInBody(o: ByteOrder, name: Name)
    requires |name| < 0x1_0000
    ensures U16(o, NameBody(o, name), 0) == |name| && NameBody(o, name)[4..4 + |name|] == name
  {
    var s := NameBody(o, name);
    assert s[..2] == Enc16(o, |name|) && U16(o, s, 0) == U16(o, s[..2], 0);
  }

  lemma BodyInRequest(o: ByteOrder, opcode: byte, detail: byte, body: seq<byte>, big: bool)
    requires Encodable(body, big) && |body| >= 4
    ensures var m := EncodeRequest(o, opcode, detail, body, big); var at := if big then 8 else 4;
      && m[0] == opcode && |m| == at + |body| && m[at..] == body && (U16(o, m, 2) == 0 <==> big) && U16(o, m, at) == U16(o, body, 0)
  {
    var m := EncodeRequest(o, opcode, detail, body, big);
    if big {
      assert U16(o, m, 2) == 0;
    } else {
      assert m[2..4] == Enc16(o, 1 + |body| / ALIGN) && U16(o, m, 2) == U16(o, m[2..4], 0);
    }
  }

  /** Whatever string a client asks about, in either byte order and either length form, it is found again. */
  lemma NameRoundTrip(o: ByteOrder, opcode: byte, detail: byte, name: Name, big: bool)
    requires |name| < 0x1_0000 && Encodable(NameBody(o, name), big)
    ensures var m := EncodeRequest(o, opcode, detail, NameBody(o, name), big);
      && NamePlace(o, m) == Some((if big then 12 else 8, |name|)) && NameOf(o, m) == Some(name)
  {
    var body, m := NameBody(o, name), EncodeRequest(o, opcode, detail, NameBody(o, name), big);
    NameInBody(o, name);
    BodyInRequest(o, opcode, detail, body, big);
    var at := if big then 8 else 4;
    assert m[at..][4..4 + |name|] == m[at + 4..at + 4 + |name|];
  }

  /** A request without a string is taken if and only if it is in the short form or its connection may use the
      other one. It is numbered, and nothing is stashed. */
  lemma RequestIsTaken(p: Parser, c: Conn, at: nat, opcode: byte, detail: byte, body: seq<byte>, big: bool)
    requires Encodable(body, big) && opcode != 16 && opcode != 98
    ensures var t := LogRequest(p, c, EncodeRequest(Order(p, c), opcode, detail, body, big), at);
      && (t.Some? <==> !big || c.Enabled(BIG_REQUESTS))
      && (t.Some? ==> t.value.p == p && t.value.c.sequence == (c.sequence + 1) % 0x1_0000)
  {
    EncodedIsWellFormed(Order(p, c), opcode, detail, body, big);
    EncodedForm(Order(p, c), opcode, detail, body, big);
  }

  lemma EncodedForm(o: ByteOrder, opcode: byte, detail: byte, body: seq<byte>, big: bool)
    requires Encodable(body, big)
    ensures var m := EncodeRequest(o, opcode, detail, body, big); |m| >= 4 && m[0] == opcode && (U16(o, m, 2) == 0 <==> big)
  {
    var m := EncodeRequest(o, opcode, detail, body, big);
    if !big {
      assert m[2..4] == Enc16(o, 1 + |body| / ALIGN) && U16(o, m, 2) == U16(o, m[2..4], 0);
    }
  }

  /** One with a string is taken if and only if, besides, no view is left under its number; it leaves a view of its
      string's place in the client's buffer. */
  lemma NamedRequestIsTaken(p: Parser, c: Conn, at: nat, opcode: byte, detail: byte, name: Name, big: bool)
    requires |name| < 0x1_0000 && (opcode == 16 || opcode == 98)
    requires Encodable(NameBody(Order(p, c), name), big)
    ensures var m := EncodeRequest(Order(p, c), opcode, detail, NameBody(Order(p, c), name), big);
      var t := LogRequest(p, c, m, at); var k := (c.sequence + 1) % 0x1_0000;
      && (t.Some? <==> (!big || c.Enabled(BIG_REQUESTS)) && (c.id, k) !in p.stash)
      && (t.Some? ==> t.value.c.sequence == k
                      && t.value.p == p.(stash := p.stash[(c.id, k) := Slice(|c.mem|, at + (if big then 12 else 8), |name|)]))
  {
    EncodedIsWellFormed(Order(p, c), opcode, detail, NameBody(Order(p, c), name), big);
    EncodedForm(Order(p, c), opcode, detail, NameBody(Order(p, c), name), big);
    NameRoundTrip(Order(p, c), opcode, detail, name, big);
  }

  /** Four bytes of a request of extended length one are taken for a message if and only if its connection may use
      extended lengths and its printer goes on: that of NoOperation (127), of PutImage (72) and QueryTextExtents (48)
      if what they read is inside the buffer, and the one for requests that no table has. */
  lemma CroppedIsTaken(p: Parser, c: Conn, at: nat, opcode: byte, detail: byte)
    requires Contains(c.mem, at, [opcode, detail, 0, 0] + Enc32(Order(p, c), 1))
    ensures var t := LogRequest(p, c, [opcode, detail, 0, 0], at);
      && t.Some? == (c.Enabled(BIG_REQUESTS)
                     && (opcode == 127
                         || (opcode == 72 && at + 28 <= |c.mem|)
                         || (opcode == 48 && at + (if detail == 0 then 131_076 else 131_074) <= |c.mem|)
                         || (!(1 <= opcode <= 119) && opcode != 127 && !(opcode in p.majors && detail == 0))))
      && (t.Some? ==> t.value.p == p && t.value.c.sequence == (c.sequence + 1) % 0x1_0000)
  {
    var o, m, whole := Order(p, c), [opcode, detail, 0, 0], [opcode, detail, 0, 0] + Enc32(Order(p, c), 1);
    assert U16(o, m, 2) == 0;
    assert c.mem[at..at + 8] == whole && whole[4..8] == Enc32(o, 1) && c.mem[at + 4..at + 8] == whole[4..8];
    assert U32(o, c.mem, at + 4) == U32(o, c.mem[at + 4..at + 8], 0);
  }

  // ---- responses ----

  /** The response gives back the view under `key`: it is a reply to its query, or to an InternAtom request with an
      atom in it. */
  predicate GivesBack(o: ByteOrder, c: Conn, m: seq<byte>, key: (nat, nat)) {
    && |m| >= 32 && m[0] == 1 && key == (c.id, U16(o, m, 2)) && key.1 in c.opcodes
    && (c.opcodes[key.1] == 98 || (c.opcodes[key.1] == 16 && U32(o, m, 8) != 0))
  }

  /** A response gives back exactly that view, and keeps every other one. */
  lemma ResponseGivesBack(p: Parser, c: Conn, m: seq<byte>)
    requires LogResponse(p, c, m).Some?
    ensures var stash' := LogResponse(p, c, m).value.p.stash;
      && (forall key :: key in stash' <==> key in p.stash && !GivesBack(Order(p, c), c, m, key))
      && (forall key <- stash' :: stash'[key] == p.stash[key])
  {
  }

  /** A reply without an atom frees its number but leaves the view of its request's string. */
  lemma NoAtomLeavesView(p: Parser, c: Conn, m: seq<byte>)
    requires LogResponse(p, c, m).Some? && m[0] == 1
    requires var k := U16(Order(p, c), m, 2);
      k in c.opcodes && c.opcodes[k] == 16 && (c.id, k) in p.stash && U32(Order(p, c), m, 8) == 0
    ensures var l := LogResponse(p, c, m).value; var k := U16(Order(p, c), m, 2);
      k !in l.c.opcodes && (c.id, k) in l.p.stash
  {
  }

  /** The view under a number that no request with a string holds. */
  predicate LeftBehind(s: System, id: nat, k: nat) {
    && id in s.used && (id, k) in s.p.stash
    && (id in s.conns ==> s.conns[id].id == id && var c := s.conns[id];
          k in c.opcodes ==> c.opcodes[k] != 16 && c.opcodes[k] != 98)
  }

  lemma RequestLeaves(p: Parser, c: Conn, m: seq<byte>, at: nat, k: nat)
    requires LogRequest(p, c, m, at).Some? && (c.id, k) in p.stash
    ensures var t := LogRequest(p, c, m, at).value;
      && t.c.id == c.id && (c.id, k) in t.p.stash && (forall key <- p.stash :: key in t.p.stash)
      && (k in t.c.opcodes && k !in c.opcodes ==> t.c.opcodes[k] != 16 && t.c.opcodes[k] != 98)
      && (k in c.opcodes ==> k in t.c.opcodes && t.c.opcodes[k] == c.opcodes[k])
  {
  }

  lemma ResponseLeaves(p: Parser, c: Conn, m: seq<byte>, k: nat)
    requires LogResponse(p, c, m).Some?
    ensures var l := LogResponse(p, c, m).value;
      l.c.id == c.id && forall j <- l.c.opcodes :: j in c.opcodes && l.c.opcodes[j] == c.opcodes[j]
  {
  }

  /** ... for good: no later reply takes it back, and the process ends at a request with a string that is given the
      number again. */
  lemma {:induction false} LeftBehindStays(s: System, es: seq<Event>, id: nat, k: nat)
    requires LeftBehind(s, id, k) && (forall i <- s.conns :: s.conns[i].id == i) && Run(s, es).Some?
    ensures LeftBehind(Run(s, es).value, id, k) && forall i <- Run(s, es).value.conns :: Run(s, es).value.conns[i].id == i
    decreases |es|
  {
    if es != [] {
      var before, e := es[..|es| - 1], es[|es| - 1];
      LeftBehindStays(s, before, id, k);
      var t := Run(s, before).value;
      match e
      case Request(i, m, at) =>
        RequestHasEffect(t.p, t.conns[i], m, at);
        if i == id {
          RequestLeaves(t.p, t.conns[i], m, at, k);
        }
      case Response(i, m) =>
        ResponseGivesBack(t.p, t.conns[i], m);
        ResponseLeaves(t.p, t.conns[i], m, k);
      case Established(_, _, _) =>
      case Received(_, _) =>
      case Gone(_) =>
    }
  }

  /** An error or an event, whatever it says, is taken and sent on as it came. */
  lemma OthersPass(p: Parser, c: Conn, m: seq<byte>)
    requires |m| == 32 && m[0] != 1
    ensures var l := LogResponse(p, c, m); l.Some? && l.value.out == m && l.value.p == p
  {
  }

  /** The reply to a query is taken if and only if the view stashed for the query is there and not dangling, and
      what it spells is denied, or not present, or the one extension that the parser knows. */
  lemma QueryReplyIsTaken(p: Parser, c: Conn, m: seq<byte>)
    requires |m| == 32 && m[0] == 1 && U32(Order(p, c), m, 4) == 0
    requires U16(Order(p, c), m, 2) in c.opcodes && c.opcodes[U16(Order(p, c), m, 2)] == 98
    ensures var key := (c.id, U16(Order(p, c), m, 2));
      LogResponse(p, c, m).Some?
      <==> key in p.stash && Spelled(c.mem, p.stash[key]).Some?
           && var now := Spelled(c.mem, p.stash[key]).value;
              now !in p.allowed || m[8] == 0 || now == Ascii("BIG-REQUESTS")
  {
    assert Ascii("BIG-REQUESTS") == BIG_REQUESTS;
    assert WellFormed(FromServer, Order(p, c), m);
  }

  /** The reply to an InternAtom request is taken if and only if it has no atom, or the view stashed for the request
      is there and not dangling. */
  lemma InternReplyIsTaken(p: Parser, c: Conn, m: seq<byte>)
    requires |m| == 32 && m[0] == 1 && U32(Order(p, c), m, 4) == 0
    requires U16(Order(p, c), m, 2) in c.opcodes && c.opcodes[U16(Order(p, c), m, 2)] == 16
    ensures var key := (c.id, U16(Order(p, c), m, 2));
      LogResponse(p, c, m).Some? <==> U32(Order(p, c), m, 8) == 0 || (key in p.stash && Spelled(c.mem, p.stash[key]).Some?)
  {
    assert WellFormed(FromServer, Order(p, c), m);
  }

  /** Any other reply goes out as it came and leaves the views, the atoms and the opcodes alone. One to a core request
      is taken if and only if that request has replies; one to the registered extension's if and only if it has 32
      bytes and is the connection's first; and one to an unknown request always. */
  lemma PlainReplyIsTaken(p: Parser, c: Conn, m: seq<byte>)
    requires WellFormed(FromServer, Order(p, c), m) && m[0] == 1
    requires U16(Order(p, c), m, 2) in c.opcodes
    requires var op := c.opcodes[U16(Order(p, c), m, 2)]; op != 16 && op != 98
    ensures var l, op := LogResponse(p, c, m), c.opcodes[U16(Order(p, c), m, 2)];
      && (l.Some? <==> if 1 <= op <= 119 || op == 127 then op in REPLYING
                       else op in p.majors ==> |m| == 32 && !c.Enabled(BIG_REQUESTS))
      && (l.Some? ==> l.value.out == m && l.value.p == p)
  {
  }

  // ---- extended lengths ----

  /** Event `i` is a reply to a request of the registered extension. */
  ghost predicate EnabledAt(p: Parser, es: seq<Event>, i: nat, id: nat) {
    && i < |es| && es[i].Response? && es[i].id == id && |es[i].msg| >= 32 && es[i].msg[0] == 1
    && Run(Start(p), es[..i]).Some? && id in Run(Start(p), es[..i]).value.conns
    && var s := Run(Start(p), es[..i]).value; var c := s.conns[id]; var k := U16(Order(s.p, c), es[i].msg, 2);
      k in c.opcodes && !IsCore(c.opcodes[k]) && c.opcodes[k] in s.p.majors
  }

  lemma ResponseEnables(p: Parser, c: Conn, m: seq<byte>)
    requires LogResponse(p, c, m).Some? && BIG_REQUESTS in c.extensions
    ensures |m| >= 32
    ensures var c' := LogResponse(p, c, m).value.c; var k := U16(Order(p, c), m, 2);
      && BIG_REQUESTS in c'.extensions
      && c'.Enabled(BIG_REQUESTS)
        == (c.Enabled(BIG_REQUESTS) || (m[0] == 1 && k in c.opcodes && !IsCore(c.opcodes[k]) && c.opcodes[k] in p.majors))
  {
  }

  lemma {:induction false} UsedStays(p: Parser, es: seq<Event>, i: nat, id: nat)
    requires i <= |es| && Run(Start(p), es).Some? && Fresh(p)
    requires Run(Start(p), es[..i]).Some? && id in Run(Start(p), es[..i]).value.conns
    ensures id in Run(Start(p), es).value.used
    decreases |es|
  {
    if i == |es| {
      assert es[..i] == es;
      RunAgrees(p, es);
      assert ConnAgrees(p, Run(Start(p), es).value, es, id);
    } else {
      assert es[..|es| - 1][..i] == es[..i];
      UsedStays(p, es[..|es| - 1], i, id);
    }
  }

  lemma EarlierEnabled(p: Parser, es: seq<Event>, e: Event, id: nat)
    ensures (exists i: nat :: EnabledAt(p, es + [e], i, id))
      == ((exists i: nat :: EnabledAt(p, es, i, id)) || EnabledAt(p, es + [e], |es|, id))
  {
    forall i: nat | i < |es| ensures EnabledAt(p, es + [e], i, id) == EnabledAt(p, es, i, id) {
      assert (es + [e])[..i] == es[..i];
    }
  }

  lemma NotBefore(p: Parser, es: seq<Event>, id: nat)
    requires Fresh(p) && Run(Start(p), es).Some? && id !in Run(Start(p), es).value.used
    ensures !exists i: nat :: EnabledAt(p, es, i, id)
  {
    if i: nat :| EnabledAt(p, es, i, id) {
      UsedStays(p, es, i, id);
    }
  }

  /** Over whole runs: a connection may use extended lengths if and only if a reply to a request of the registered
      extension has come on it. */
  lemma {:induction false} EnabledExactly(p: Parser, es: seq<Event>, id: nat)
    requires Fresh(p) && Run(Start(p), es).Some? && id in Run(Start(p), es).value.conns
    ensures var c := Run(Start(p), es).value.conns[id];
      BIG_REQUESTS in c.extensions && (c.Enabled(BIG_REQUESTS) <==> exists i: nat :: EnabledAt(p, es, i, id))
    decreases |es|
  {
    var before, e := es[..|es| - 1], es[|es| - 1];
    assert es == before + [e];
    var s := Run(Start(p), before).value;
    EarlierEnabled(p, before, e, id);
    if e.Established? && e.id == id {
      NotBefore(p, before, id);
    } else {
      EnabledExactly(p, before, id);
      if e.Request? && e.id == id {
        RequestHasEffect(s.p, s.conns[id], e.msg, e.at);
      } else if e.Response? && e.id == id {
        ResponseEnables(s.p, s.conns[id], e.msg);
      }
    }
  }

  /** ... so a request in the extended form, and without a string, is taken exactly then. */
  lemma ExtendedIsTakenExactly(p: Parser, es: seq<Event>, id: nat, at: nat, opcode: byte, detail: byte, body: seq<byte>)
    requires Fresh(p) && Run(Start(p), es).Some? && id in Run(Start(p), es).value.conns
    requires Encodable(body, true) && opcode != 16 && opcode != 98
    requires var s := Run(Start(p), es).value;
      Contains(s.conns[id].mem, at, EncodeRequest(Order(s.p, s.conns[id]), opcode, detail, body, true))
    ensures var s := Run(Start(p), es).value;
      Step(s, Request(id, EncodeRequest(Order(s.p, s.conns[id]), opcode, detail, body, true), at)).Some?
      <==> exists i: nat :: EnabledAt(p, es, i, id)
  {
    var s := Run(Start(p), es).value;
    EnabledExactly(p, es, id);
    RequestIsTaken(s.p, s.conns[id], at, opcode, detail, body, true);
  }
}
