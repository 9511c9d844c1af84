/**
 Where one message ends and the next begins, as a function of the byte stream alone.

 Requests follow section "Request Format" of the X protocol encoding and section "Encoding" of the
 BIG-REQUESTS extension; replies, errors and events follow "Reply Format", "Error Format" and
 "Event Format". The relay's loops are compared with `Frames`.
 */
module Wire {
  import opened Bytes

  datatype Side = FromClient | FromServer

  const RESPONSE_SZ: nat := 32
  const REPLY_PREFIX: byte := 1

  /** The length the message at the front of `s` gives itself, once enough of it is there to tell.
      A request shorter than its own header has no length. */
  function SizeOf(side: Side, o: ByteOrder, s: seq<byte>): (n: Option<nat>)
    ensures n.Some? ==> n.value >= 4 && |s| >= 4
  {
    if |s| < 4 then None
    else if side.FromServer? then
      if s[0] != REPLY_PREFIX then Some(RESPONSE_SZ)
      else if |s| < 8 then None
      else Some(RESPONSE_SZ + ALIGN * U32(o, s, 4))
    else if U16(o, s, 2) != 0 then Some(ALIGN * U16(o, s, 2))
    else if |s| < 8 || U32(o, s, 4) < 2 then None
    else Some(ALIGN * U32(o, s, 4))
  }

  predicate WellFormed(side: Side, o: ByteOrder, m: seq<byte>) {
    SizeOf(side, o, m) == Some(|m|)
  }

  /** A request cut off in front of its extended length. */
  predicate Cropped(side: Side, o: ByteOrder, m: seq<byte>) { side.FromClient? && |m| == 4 && U16(o, m, 2) == 0 }

  /** The stream goes on with a request whose extended length says that it ends before that length. */
  predicate EndsInItsHeader(side: Side, o: ByteOrder, s: seq<byte>) {
    side.FromClient? && |s| >= 8 && U16(o, s, 2) == 0 && U32(o, s, 4) == 1
  }

  predicate AllWellFormed(side: Side, o: ByteOrder, msgs: seq<seq<byte>>) {
    forall i :: 0 <= i < |msgs| ==> WellFormed(side, o, msgs[i])
  }

  /** Every message has the length it announces, or is cut off in front of its length. */
  predicate AllFit(side: Side, o: ByteOrder, msgs: seq<seq<byte>>) {
    forall i :: 0 <= i < |msgs| ==> WellFormed(side, o, msgs[i]) || Cropped(side, o, msgs[i])
  }

  /** The whole messages at the front of a stream, and what is left of it. */
  datatype Framing = Framing(msgs: seq<seq<byte>>, tail: seq<byte>)

  function Frames(side: Side, o: ByteOrder, s: seq<byte>): Framing
    decreases |s|
  {
    var n := SizeOf(side, o, s);
    if n.Some? && n.value <= |s| then
      var rest := Frames(side, o, s[n.value..]);
      Framing([s[..n.value]] + rest.msgs, rest.tail)
    else Framing([], s)
  }

  function Flatten(msgs: seq<seq<byte>>): seq<byte> {
    if msgs == [] then [] else msgs[0] + Flatten(msgs[1..])
  }

  lemma {:induction false} FlattenAppend(a: seq<seq<byte>>, b: seq<seq<byte>>)
    ensures Flatten(a + b) == Flatten(a) + Flatten(b)
  {
    if a == [] {
      assert a + b == b;
    } else {
      assert (a + b)[0] == a[0] && (a + b)[1..] == a[1..] + b;
      FlattenAppend(a[1..], b);
      Regroup(a[0], Flatten(a[1..]), Flatten(b));
    }
  }

  lemma FlattenOne(m: seq<byte>)
    ensures Flatten([m]) == m
  {
    assert Flatten([m]) == m + Flatten([]);
  }

  /** A length, once known, does not change when more bytes arrive. */
  lemma SizeOfStable(side: Side, o: ByteOrder, s: seq<byte>, t: seq<byte>)
    requires SizeOf(side, o, s).Some?
    ensures SizeOf(side, o, s + t) == SizeOf(side, o, s)
  {
    assert (s + t)[..4] == s[..4];
    if |s| >= 8 {
      assert (s + t)[..8] == s[..8];
    }
  }

  /** A message cut at its own length is well formed. */
  lemma CutIsWellFormed(side: Side, o: ByteOrder, s: seq<byte>, n: nat)
    requires SizeOf(side, o, s) == Some(n) && n <= |s|
    ensures WellFormed(side, o, s[..n])
  {
    assert s[..n][..4] == s[..4];
    if n >= 8 && |s| >= 8 {
      assert s[..n][..8] == s[..8];
    }
  }

  /** `f` splits `s` into well-formed messages and a rest that holds no whole message. */
  predicate Partitions(side: Side, o: ByteOrder, s: seq<byte>, f: Framing) {
    && s == Flatten(f.msgs) + f.tail
    && AllWellFormed(side, o, f.msgs)
    && Frames(side, o, f.tail) == Framing([], f.tail)
  }

  /** Framing loses nothing, and stops only where no whole message is left. */
  lemma {:induction false} FramesPartition(side: Side, o: ByteOrder, s: seq<byte>)
    ensures Partitions(side, o, s, Frames(side, o, s))
    decreases |s|
  {
    var n := SizeOf(side, o, s);
    if n.Some? && n.value <= |s| {
      var first, rest := s[..n.value], s[n.value..];
      FramesPartition(side, o, rest);
      CutIsWellFormed(side, o, s, n.value);
      PartitionsCons(side, o, first, rest, Frames(side, o, rest));
      assert s == first + rest;
    } else {
      PartitionsNothing(side, o, s);
    }
  }

  lemma PartitionsNothing(side: Side, o: ByteOrder, s: seq<byte>)
    requires Frames(side, o, s) == Framing([], s)
    ensures Partitions(side, o, s, Framing([], s))
  {
    assert Flatten([]) + s == s;
  }

  lemma PartitionsCons(side: Side, o: ByteOrder, first: seq<byte>, rest: seq<byte>, f: Framing)
    requires WellFormed(side, o, first) && Partitions(side, o, rest, f)
    ensures Partitions(side, o, first + rest, Framing([first] + f.msgs, f.tail))
  {
    assert ([first] + f.msgs)[1..] == f.msgs;
    assert first + rest == Flatten([first] + f.msgs) + f.tail;
  }

  lemma FramesCons(side: Side, o: ByteOrder, first: seq<byte>, rest: seq<byte>)
    requires WellFormed(side, o, first)
    ensures Frames(side, o, first + rest) == Framing([first] + Frames(side, o, rest).msgs, Frames(side, o, rest).tail)
  {
    SizeOfStable(side, o, first, rest);
    assert (first + rest)[..|first|] == first && (first + rest)[|first|..] == rest;
  }

  lemma NoFrames(side: Side, o: ByteOrder, s: seq<byte>)
    requires Frames(side, o, s).msgs == []
    ensures Frames(side, o, s) == Framing([], s)
  {
  }

  /** Any way of writing a stream as well-formed messages and an incomplete rest is the framing of it. */
  lemma {:induction false} FramesUnique(side: Side, o: ByteOrder, msgs: seq<seq<byte>>, tail: seq<byte>)
    requires AllWellFormed(side, o, msgs) && Frames(side, o, tail).msgs == []
    ensures Frames(side, o, Flatten(msgs) + tail) == Framing(msgs, tail)
    decreases |msgs|
  {
    if msgs == [] {
      NoFrames(side, o, tail);
      assert Flatten(msgs) + tail == tail;
    } else {
      var first, rest := msgs[0], Flatten(msgs[1..]) + tail;
      assert Flatten(msgs) + tail == first + rest && [first] + msgs[1..] == msgs;
      assert WellFormed(side, o, first);
      FramesUnique(side, o, msgs[1..], tail);
      FramesCons(side, o, first, rest);
    }
  }

  lemma PartitionsJoin(side: Side, o: ByteOrder, s: seq<byte>, f: Framing, t: seq<byte>, g: Framing)
    requires Partitions(side, o, s, f) && Partitions(side, o, f.tail + t, g)
    ensures Partitions(side, o, s + t, Framing(f.msgs + g.msgs, g.tail))
  {
    FlattenAppend(f.msgs, g.msgs);
    ThreeParts(Flatten(f.msgs), f.tail, t, Flatten(g.msgs), g.tail);
  }

  lemma ThreeParts(a: seq<byte>, b: seq<byte>, c: seq<byte>, d: seq<byte>, e: seq<byte>)
    requires b + c == d + e
    ensures a + b + c == a + d + e
  {
    assert a + b + c == a + (b + c);
    assert a + d + e == a + (d + e);
  }

  /** Framing a stream that arrives in two pieces: the second piece continues the first one's rest. */
  lemma FramesExtend(side: Side, o: ByteOrder, s: seq<byte>, t: seq<byte>)
    ensures var f := Frames(side, o, s); var g := Frames(side, o, f.tail + t);
      Frames(side, o, s + t) == Framing(f.msgs + g.msgs, g.tail)
  {
    var f := Frames(side, o, s);
    var g := Frames(side, o, f.tail + t);
    FramesPartition(side, o, s);
    FramesPartition(side, o, f.tail + t);
    PartitionsJoin(side, o, s, f, t, g);
    FramesUnique(side, o, f.msgs + g.msgs, g.tail);
  }

  /** The longest body the chosen length form can announce. */
  predicate Encodable(body: seq<byte>, big: bool) {
    && |body| % ALIGN == 0
    && if big then 2 + |body| / ALIGN < 0x1_0000_0000 else 1 + |body| / ALIGN < 0x1_0000
  }

  /** A request as its client writes it, with a 16-bit or an extended 32-bit length. */
  function EncodeRequest(o: ByteOrder, opcode: byte, detail: byte, body: seq<byte>, big: bool): seq<byte>
    requires Encodable(body, big)
  {
    if big then [opcode, detail, 0, 0] + Enc32(o, 2 + |body| / ALIGN) + body
    else [opcode, detail] + Enc16(o, 1 + |body| / ALIGN) + body
  }

  lemma EncodedIsWellFormed(o: ByteOrder, opcode: byte, detail: byte, body: seq<byte>, big: bool)
    requires Encodable(body, big)
    ensures WellFormed(FromClient, o, EncodeRequest(o, opcode, detail, body, big))
  {
    var m := EncodeRequest(o, opcode, detail, body, big);
    if big {
      var len := Enc32(o, 2 + |body| / ALIGN);
      assert m[4..8] == len;
      assert U32(o, m, 4) == U32(o, len, 0);
      assert U16(o, m, 2) == 0;
    } else {
      var len := Enc16(o, 1 + |body| / ALIGN);
      assert m[2..4] == len;
      assert U16(o, m, 2) == U16(o, len, 0);
    }
  }

  datatype Message = Message(opcode: byte, detail: byte, body: seq<byte>, big: bool)

  predicate AllEncodable(rs: seq<Message>) {
    forall i :: 0 <= i < |rs| ==> Encodable(rs[i].body, rs[i].big)
  }

  function EncodeAll(o: ByteOrder, rs: seq<Message>): seq<seq<byte>>
    requires AllEncodable(rs)
  {
    seq(|rs|, i requires 0 <= i < |rs| => EncodeRequest(o, rs[i].opcode, rs[i].detail, rs[i].body, rs[i].big))
  }

  /** Whatever requests a client writes back to back, in either byte order and either length form,
      framing the stream gives back exactly those. */
  lemma FramingRoundTrip(o: ByteOrder, rs: seq<Message>)
    requires AllEncodable(rs)
    ensures Frames(FromClient, o, Flatten(EncodeAll(o, rs))) == Framing(EncodeAll(o, rs), [])
  {
    var msgs := EncodeAll(o, rs);
    forall i | 0 <= i < |msgs| ensures WellFormed(FromClient, o, msgs[i]) {
      EncodedIsWellFormed(o, rs[i].opcode, rs[i].detail, rs[i].body, rs[i].big);
    }
    FramesUnique(FromClient, o, msgs, []);
    assert Flatten(msgs) + [] == Flatten(msgs);
  }

  /** A response as its server writes it: an event or an error of 32 bytes, or a reply, whose length counts the
      units behind its first 32 bytes. */
  datatype ServerMessage =
    | EventOrError(code: byte, detail: byte, sequence: nat, rest: seq<byte>)
    | Reply(detail: byte, sequence: nat, fields: seq<byte>, more: seq<byte>)
  {
    predicate Encodable() {
      && sequence < 0x1_0000
      && (EventOrError? ==> code != 1 && |rest| == 28)
      && (Reply? ==> |fields| == 24 && |more| % 4 == 0 && |more| / 4 < 0x1_0000_0000)
    }
  }

  function EncodeResponse(o: ByteOrder, r: ServerMessage): (m: seq<byte>)
    requires r.Encodable()
    ensures |m| == if r.EventOrError? then 32 else 32 + |r.more|
  {
    match r
    case EventOrError(code, detail, sequence, rest) => [code, detail] + Enc16(o, sequence) + rest
    case Reply(detail, sequence, fields, more) =>
      [1, detail] + Enc16(o, sequence) + Enc32(o, |more| / 4) + fields + more
  }

  predicate AllResponsesEncodable(rs: seq<ServerMessage>) { forall i :: 0 <= i < |rs| ==> rs[i].Encodable() }

  function EncodeResponses(o: ByteOrder, rs: seq<ServerMessage>): seq<seq<byte>>
    requires AllResponsesEncodable(rs)
  {
    seq(|rs|, i requires 0 <= i < |rs| => EncodeResponse(o, rs[i]))
  }

  /** It has the length it announces, and its number where the relay looks for it. */
  lemma ResponseIsWellFormed(o: ByteOrder, r: ServerMessage)
    requires r.Encodable()
    ensures WellFormed(FromServer, o, EncodeResponse(o, r)) && U16(o, EncodeResponse(o, r), 2) == r.sequence
  {
    var m := EncodeResponse(o, r);
    assert m[2..4] == Enc16(o, r.sequence) && U16(o, m, 2) == U16(o, m[2..4], 0);
    if r.Reply? {
      assert m[4..8] == Enc32(o, |r.more| / 4) && U32(o, m, 4) == U32(o, m[4..8], 0);
    }
  }

  /** Whatever errors, events and replies a server writes back to back, framing gives back exactly those. */
  lemma ResponsesRoundTrip(o: ByteOrder, rs: seq<ServerMessage>)
    requires AllResponsesEncodable(rs)
    ensures Frames(FromServer, o, Flatten(EncodeResponses(o, rs))) == Framing(EncodeResponses(o, rs), [])
  {
    var msgs := EncodeResponses(o, rs);
    forall i | 0 <= i < |msgs| ensures WellFormed(FromServer, o, msgs[i]) {
      ResponseIsWellFormed(o, rs[i]);
    }
    FramesUnique(FromServer, o, msgs, []);
    assert Flatten(msgs) + [] == Flatten(msgs);
  }
}
