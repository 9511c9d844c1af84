/**
 The two loops that cut what a socket delivered into messages and log them.

 `Pass` is one call of a loop as a function of the buffer, its stale bytes included. `cur` is the loop's
 data pointer: it starts at the first byte not yet sent, whatever part of the buffer is already parsed.
 `None` means that the process ends, or that the loop reads beyond the buffer.
 */
module MessageLoops {
  import opened Bytes
  import opened SocketBuffers
  import opened Wire
  import opened Tracking
  import opened SetupCodec

  const INITIATION_HEADER_SZ: nat := 12
  const RESPONSE_HEADER_SZ: nat := 8
  const MSBFIRST: byte := 66
  const LSBFIRST: byte := 108

  /** A connection the loops can be entered with: the answer to a connection attempt either opens the
      connection or ends the process, so no other status is ever seen. */
  predicate Live(c: Conn) { c.status.Unestablished? || c.status.Open? }

  /** The first byte of a connection attempt names the client's byte order. */
  predicate NamesOrder(b: byte) { b == MSBFIRST || b == LSBFIRST }

  function SwapFor(host: ByteOrder, b: byte): bool { host.LsbFirst? != (b == LSBFIRST) }

  /** The length of a connection attempt's first message, with its name and data strings. */
  function InitiationSize(p: Parser, c: Conn, m: seq<byte>, at: nat): nat
    requires at + INITIATION_HEADER_SZ <= |m|
  {
    INITIATION_HEADER_SZ + Pad(Ordered16(p.host, c.byteswap, m, at + 6)) + Pad(Ordered16(p.host, c.byteswap, m, at + 8))
  }

  datatype Measured = Measured(c: Conn, next: Option<nat>)

  /** The size the client loop gives the message at `cur`, if it can tell. How many bytes are there is
      judged by everything the buffer holds, not by what is left to parse. */
  function MeasureClient(p: Parser, c: Conn, b: Buffer, cur: nat): Option<Measured> {
    var s := b.store;
    if !b.Valid() then None
    else if c.status.Unestablished? then
      if b.Size() < INITIATION_HEADER_SZ then Some(Measured(c, None))
      else if cur + INITIATION_HEADER_SZ > |s| || !NamesOrder(s[cur]) then None
      else
        var c' := c.(byteswap := SwapFor(p.host, s[cur]));
        Some(Measured(c', Some(InitiationSize(p, c', s, cur))))
    else
      if b.Size() < 4 then Some(Measured(c, None))
      else if cur + 4 > |s| then None
      else if U16(p.host, s, cur + 2) != 0 then Some(Measured(c, Some(ALIGN * Ordered16(p.host, c.byteswap, s, cur + 2))))
      else if b.Size() < 8 then Some(Measured(c, None))
      else if cur + 8 > |s| then None
      else Some(Measured(c, Some(ALIGN * Ordered32(p.host, c.byteswap, s, cur + 4))))
  }

  function MeasureServer(p: Parser, c: Conn, b: Buffer, cur: nat): Option<Measured> {
    var s := b.store;
    if !b.Valid() then None
    else if c.status.Unestablished? then
      if b.Size() < RESPONSE_HEADER_SZ then Some(Measured(c, None))
      else if cur + RESPONSE_HEADER_SZ > |s| then None
      else Some(Measured(c, Some(RESPONSE_HEADER_SZ + ALIGN * Ordered16(p.host, c.byteswap, s, cur + 6))))
    else
      if b.Size() < 4 then Some(Measured(c, None))
      else if cur >= |s| then None
      else if s[cur] != REPLY_PREFIX then Some(Measured(c, Some(RESPONSE_SZ)))
      else if cur + 8 > |s| then None
      else Some(Measured(c, Some(RESPONSE_SZ + ALIGN * Ordered32(p.host, c.byteswap, s, cur + 4))))
  }

  /** What logging the message `m` at `at` does. A message must take exactly the bytes its loop measured. */
  function HandleClient(p: Parser, c: Conn, m: seq<byte>, at: nat): (r: Option<Logged>)
    ensures r.Some? ==> |r.value.out| == |m| > 0
  {
    if c.status.Open? then
      var t := LogRequest(p, c, m, at);
      if t.None? then None else Some(Logged(t.value.p, t.value.c, m))
    else if |m| < INITIATION_HEADER_SZ || !NamesOrder(m[0]) || c.byteswap != SwapFor(p.host, m[0]) then None
    else if InitiationSize(p, c, m, 0) != |m| then None
    else Some(Logged(p, c, m))
  }

  function HandleServer(p: Parser, c: Conn, m: seq<byte>, at: nat): (r: Option<Logged>)
    ensures r.Some? ==> |r.value.out| == |m| > 0
  {
    if c.status.Open? then LogResponse(p, c, m)
    else if |m| == 0 || !Opens(Order(p, c), m) then None
    else Some(Logged(p, c.(status := Open), m))
  }

  type Measurer = (Parser, Conn, Buffer, nat) -> Option<Measured>

  /** Logging may edit a message in place, so it keeps its length. */
  type Handler = h: (Parser, Conn, seq<byte>, nat) -> Option<Logged>
    | forall p, c, m, at :: h(p, c, m, at).Some? ==> |h(p, c, m, at).value.out| == |m| > 0
    witness (p, c, m, at) => None

  /** What the two loops do differently. */
  datatype Rules = Rules(measure: Measurer, handle: Handler)

  const CLIENT_RULES := Rules(MeasureClient, HandleClient)
  const SERVER_RULES := Rules(MeasureServer, HandleServer)

  function RulesOf(side: Side): Rules {
    if side.FromClient? then CLIENT_RULES else SERVER_RULES
  }

  /** A size that is already set is kept. */
  function Measure(rules: Rules, p: Parser, c: Conn, b: Buffer, cur: nat): Option<Measured> {
    if b.next.Some? then Some(Measured(c, b.next)) else rules.measure(p, c, b, cur)
  }

  /** A message as it came in and as it goes out, and where in its buffer it is. */
  datatype Entry = Entry(msg: seq<byte>, out: seq<byte>, at: nat)

  datatype Passed = Passed(p: Parser, c: Conn, b: Buffer, log: seq<Entry>)

  function Join(log: seq<Entry>, r: Option<Passed>): Option<Passed> {
    if r.None? then None else Some(r.value.(log := log + r.value.log))
  }

  /** The bytes of `s` from `at` replaced by `out`. */
  function Patched(s: seq<byte>, at: nat, out: seq<byte>): (r: seq<byte>)
    requires at + |out| <= |s|
    ensures |r| == |s|
  {
    s[..at] + out + s[at + |out|..]
  }

  /** A measured message is whole: logging it, writing it back and marking it parsed. */
  function Advance(rules: Rules, p: Parser, c: Conn, b: Buffer, cur: nat): (r: Option<Passed>)
    requires b.Valid() && cur <= b.written + b.parsed
    requires b.next.Some? && b.next.value <= b.Unparsed()
    ensures r.Some? ==> r.value.b.Valid() && r.value.b.Unparsed() == b.Unparsed() - b.next.value < b.Unparsed()
    ensures r.Some? ==> cur + b.next.value <= r.value.b.written + r.value.b.parsed
    ensures r.Some? ==> |r.value.log| == 1 && |r.value.log[0].msg| == b.next.value && r.value.log[0].at == cur
  {
    var m := b.store[cur..cur + b.next.value];
    var l := rules.handle(p, c, m, cur);
    if l.None? then None
    else Some(Passed(l.value.p, l.value.c, Marked(b.(store := Patched(b.store, cur, l.value.out))), [Entry(m, l.value.out, cur)]))
  }

  /** The loop: measure, wait or log, until everything is parsed. */
  function Pass(rules: Rules, p: Parser, c: Conn, b: Buffer, cur: nat): Option<Passed>
    requires b.Valid() && cur <= b.written + b.parsed
    decreases b.Unparsed()
  {
    if b.Unparsed() == 0 then Some(Passed(p, c, b, []))
    else
      var size := Measure(rules, p, c, b, cur);
      if size.None? then None
      else
        var c', b' := size.value.c, b.(next := size.value.next);
        if b'.Incomplete() then Some(Passed(p, c', b', []))
        else
          var step := Advance(rules, p, c', b', cur);
          if step.None? then None
          else Join(step.value.log, Pass(rules, step.value.p, step.value.c, step.value.b, cur + b'.next.value))
  }

  /** What one turn of the loop leaves, and the message it logged, if any. */
  datatype Turn = Turn(p: Parser, c: Conn, b: Buffer, logged: Option<Entry>)

  function NextTurn(rules: Rules, p: Parser, c: Conn, b: Buffer, cur: nat): Option<Turn>
    requires b.Valid() && cur <= b.written + b.parsed
  {
    var size := Measure(rules, p, c, b, cur);
    if size.None? then None
    else
      var c', b' := size.value.c, b.(next := size.value.next);
      if b'.next.None? || b'.Unparsed() < b'.next.value then Some(Turn(p, c', b', None))
      else
        var step := Advance(rules, p, c', b', cur);
        if step.None? then None
        else Some(Turn(step.value.p, step.value.c, step.value.b, Some(step.value.log[0])))
  }
}
