/**
 What the relay remembers about messages: the table of open requests by sequence number, the stash of
 names that a later reply will need, the mirror of the server's atoms, and the extensions in use.

 A stashed name is not a copy. It is a view into the buffer that the client's bytes are read into, and
 is looked at only when the reply comes, whatever the buffer then holds.

 `None` as a result means that the process ends: an assertion fails or a table lookup throws.
 */
module Tracking {
  import opened Bytes
  import opened Wire

  type Name = seq<byte>

  /** "BIG-REQUESTS", the only extension the parser knows. */
  const BIG_REQUESTS: Name := [66, 73, 71, 45, 82, 69, 81, 85, 69, 83, 84, 83]
  const KNOWN_EXTENSIONS: set<Name> := {BIG_REQUESTS}

  const SEQ_MOD: nat := 0x1_0000

  const INTERN_ATOM: byte := 16
  const LIST_FONTS_WITH_INFO: byte := 50
  const QUERY_TEXT_EXTENTS: byte := 48
  const PUT_IMAGE: byte := 72
  const QUERY_EXTENSION: byte := 98
  const NO_OPERATION: byte := 127

  predicate IsCore(opcode: byte) { 1 <= opcode <= 119 || opcode == NO_OPERATION }

  /** Core requests for which a reply parser exists. */
  const REPLYING: set<byte> := {
    3, 14, 15, 16, 17, 20, 21, 23, 26, 31, 38, 39, 40, 43, 44, 47, 48, 49, 50, 52, 73, 83, 84, 85, 86, 87, 91,
    92, 97, 98, 99, 101, 103, 106, 108, 110, 116, 117, 118, 119 }

  datatype Status = Unestablished | Open | Closed | Failed | Authentication

  /** `mem` is the store of the client's buffer, stale bytes included. */
  datatype Conn = Conn(
    id: nat, sequence: nat, opcodes: map<nat, byte>, extensions: map<Name, bool>, byteswap: bool, status: Status,
    mem: seq<byte>)
  {
    predicate Enabled(name: Name) { name in extensions && extensions[name] }
  }

  /** `sz` bytes at `at` of a store of `room` bytes. A store only ever changes its size by growing, which
      moves it, so the size tells whether the view is still into the store there is. */
  datatype Slice = Slice(room: nat, at: nat, sz: nat)

  /** What the bytes at the view spell now; `None` when the store has moved, and the view dangles. */
  function Spelled(mem: seq<byte>, v: Slice): Option<Name> {
    if |mem| != v.room || v.at + v.sz > |mem| then None else Some(mem[v.at..v.at + v.sz])
  }

  datatype Parser = Parser(
    host: ByteOrder, allowed: set<Name>, stash: map<(nat, nat), Slice>, atoms: map<nat, Name>, majors: map<byte, Name>)

  datatype Tracked = Tracked(p: Parser, c: Conn)

  /** State after a response, and the message as it will be sent on. */
  datatype Logged = Logged(p: Parser, c: Conn, out: seq<byte>)

  function NewConn(id: nat, byteswap: bool, mem: seq<byte>): Conn {
    Conn(id, 0, map[], map[BIG_REQUESTS := false], byteswap, Unestablished, mem)
  }

  function Order(p: Parser, c: Conn): ByteOrder { OrderOf(p.host, c.byteswap) }

  function Next(n: nat): nat { (n + 1) % SEQ_MOD }

  /** Numbers a request. An entry that is still there is kept. */
  function Register(c: Conn, major: byte): Conn {
    var k := Next(c.sequence);
    c.(sequence := k, opcodes := if k in c.opcodes then c.opcodes else c.opcodes[k := major])
  }

  /** Where in an InternAtom or QueryExtension request the string behind its fixed part is, and its length. */
  function NamePlace(o: ByteOrder, m: seq<byte>): (r: Option<(nat, nat)>)
    requires |m| >= 4
    ensures r.Some? ==> r.value.0 + r.value.1 <= |m|
  {
    var fixed := if U16(o, m, 2) == 0 then 12 else 8;
    if |m| < fixed then None
    else
      var len := U16(o, m, fixed - 4);
      if fixed + Pad(len) != |m| then None else Some((fixed, len))
  }

  function NameOf(o: ByteOrder, m: seq<byte>): Option<Name>
    requires |m| >= 4
  {
    var place := NamePlace(o, m);
    if place.None? then None else Some(m[place.value.0..place.value.0 + place.value.1])
  }

  /** The view of its string that a request at `at` leaves in a store of `room` bytes. */
  function NameSlice(o: ByteOrder, m: seq<byte>, at: nat, room: nat): Slice
    requires |m| >= 4 && NamePlace(o, m).Some?
  {
    Slice(room, at + NamePlace(o, m).value.0, NamePlace(o, m).value.1)
  }

  predicate Stashes(opcode: byte) { opcode == INTERN_ATOM || opcode == QUERY_EXTENSION }

  /** No printer is known for the request: the opcode is in no table, or its extension has no such request. */
  predicate Unknown(p: Parser, m: seq<byte>)
    requires |m| >= 2
  {
    !IsCore(m[0]) && !(m[0] in p.majors && m[1] == 0)
  }

  /** How many bytes from its start the printer of a cropped request reads. QueryTextExtents prints as many
      characters as its length leaves after its fixed part, which are less than none, as a 16-bit number. */
  function PrinterReads(m: seq<byte>): (n: nat)
    requires |m| >= 2
    ensures n >= 8
  {
    if m[0] == QUERY_TEXT_EXTENTS then 12 + 2 * (((SIZE_MOD + 4 - 12) / 2 - if m[1] != 0 then 1 else 0) % 0x1_0000)
    else if m[0] == PUT_IMAGE then 28
    else 8
  }

  /** A cropped request is taken for a whole one by the printers that add what its length leaves after its
      fixed part, modulo 2^64. The length is read again, from behind the message. */
  predicate PrintsCropped(p: Parser, c: Conn, m: seq<byte>, at: nat) {
    && Cropped(FromClient, Order(p, c), m)
    && (m[0] == QUERY_TEXT_EXTENTS || m[0] == PUT_IMAGE || m[0] == NO_OPERATION || Unknown(p, m))
    && at + PrinterReads(m) <= |c.mem| && U32(Order(p, c), c.mem, at + 4) == 1
  }

  /** Logging the request `m` that is at `at` in the client's buffer. */
  function LogRequest(p: Parser, c: Conn, m: seq<byte>, at: nat): Option<Tracked> {
    var o := Order(p, c);
    if !WellFormed(FromClient, o, m) && !PrintsCropped(p, c, m, at) then None
    else if U16(o, m, 2) == 0 && !c.Enabled(BIG_REQUESTS) then None
    else
      var c' := Register(c, m[0]);
      if !Stashes(m[0]) then Some(Tracked(p, c'))
      else if NamePlace(o, m).None? || (c.id, c'.sequence) in p.stash then None
      else Some(Tracked(p.(stash := p.stash[(c.id, c'.sequence) := NameSlice(o, m, at, |c.mem|)]), c'))
  }

  /** The number whose entry a response closes. A series of ListFontsWithInfo replies keeps it open
      until the reply whose name length is zero. */
  function Closes(o: ByteOrder, c: Conn, m: seq<byte>): Option<nat>
    requires |m| >= RESPONSE_SZ
  {
    var k := U16(o, m, 2);
    if m[0] == 0 then Some(k)
    else if m[0] == REPLY_PREFIX && k in c.opcodes && (c.opcodes[k] != LIST_FONTS_WITH_INFO || m[1] == 0) then Some(k)
    else None
  }

  function Unregister(c: Conn, k: Option<nat>): Conn {
    if k.None? then c else c.(opcodes := c.opcodes - {k.value})
  }

  function LogInternAtomReply(p: Parser, c: Conn, o: ByteOrder, m: seq<byte>): Option<Logged>
    requires |m| >= RESPONSE_SZ
  {
    var key, atom := (c.id, U16(o, m, 2)), U32(o, m, 8);
    if atom == 0 then Some(Logged(p, c, m))
    else if key !in p.stash || Spelled(c.mem, p.stash[key]).None? then None
    else Some(Logged(p.(stash := p.stash - {key}, atoms := p.atoms[atom := Spelled(c.mem, p.stash[key]).value]), c, m))
  }

  /** Reports an extension as absent if the name is now a denied one; starts parsing one that is present. */
  function LogQueryExtensionReply(p: Parser, c: Conn, o: ByteOrder, m: seq<byte>): Option<Logged>
    requires |m| >= RESPONSE_SZ
  {
    var key := (c.id, U16(o, m, 2));
    if key !in p.stash || Spelled(c.mem, p.stash[key]).None? then None
    else
      var name := Spelled(c.mem, p.stash[key]).value;
      var out := if name in p.allowed then m else m[8 := 0];
      var p' := p.(stash := p.stash - {key});
      if out[8] == 0 then Some(Logged(p', c, out))
      else if name !in KNOWN_EXTENSIONS then None
      else
        var major := m[9];
        var majors := if IsCore(major) || major in p.majors then p.majors else p.majors[major := name];
        Some(Logged(p'.(majors := majors), c, out))
  }

  function EnableBigRequests(c: Conn): Conn {
    if BIG_REQUESTS in c.extensions then c.(extensions := c.extensions[BIG_REQUESTS := true]) else c
  }

  /** What a reply does, by the opcode of its request. */
  function ParseReply(p: Parser, c: Conn, o: ByteOrder, m: seq<byte>, op: byte): (r: Option<Logged>)
    requires |m| >= RESPONSE_SZ
    ensures r.Some? ==> |r.value.out| == |m|
  {
    if op == INTERN_ATOM then
      if |m| != RESPONSE_SZ then None else LogInternAtomReply(p, c, o, m)
    else if op == QUERY_EXTENSION then
      if |m| != RESPONSE_SZ then None else LogQueryExtensionReply(p, c, o, m)
    else if IsCore(op) then
      if op !in REPLYING then None else Some(Logged(p, c, m))
    else if op in p.majors then
      if |m| != RESPONSE_SZ || c.Enabled(BIG_REQUESTS) then None
      else Some(Logged(p, EnableBigRequests(c), m))
    else Some(Logged(p, c, m))
  }

  function LogReply(p: Parser, c: Conn, m: seq<byte>): (r: Option<Logged>)
    requires |m| >= RESPONSE_SZ && m[0] == REPLY_PREFIX
    ensures r.Some? ==> |r.value.out| == |m|
  {
    var o := Order(p, c);
    var k := U16(o, m, 2);
    if k !in c.opcodes || !WellFormed(FromServer, o, m) then None
    else
      var l := ParseReply(p, c, o, m, c.opcodes[k]);
      if l.None? then None else Some(l.value.(c := Unregister(l.value.c, Closes(o, c, m))))
  }

  /** Errors, replies and events, told apart by their first byte. */
  function LogResponse(p: Parser, c: Conn, m: seq<byte>): (r: Option<Logged>)
    ensures r.Some? ==> |r.value.out| == |m| >= RESPONSE_SZ
  {
    var o := Order(p, c);
    if |m| < RESPONSE_SZ then None
    else if m[0] == REPLY_PREFIX then LogReply(p, c, m)
    else if |m| != RESPONSE_SZ then None
    else Some(Logged(p, Unregister(c, Closes(o, c, m)), m))
  }

  // ---- runs over any interleaving of connections ----

  /** `Received`: a read has left `mem` in the client's buffer. `at`: where in it a request is. */
  datatype Event =
    | Established(id: nat, byteswap: bool, mem: seq<byte>)
    | Received(id: nat, mem: seq<byte>)
    | Request(id: nat, msg: seq<byte>, at: nat)
    | Response(id: nat, msg: seq<byte>)
    | Gone(id: nat)

  /** `used` are the serial numbers given out so far; they never repeat. */
  datatype System = System(p: Parser, conns: map<nat, Conn>, used: set<nat>)

  /** `m` is at `at` in `mem`. */
  predicate Contains(mem: seq<byte>, at: nat, m: seq<byte>) { at + |m| <= |mem| && mem[at..at + |m|] == m }

  function Step(s: System, e: Event): Option<System> {
    match e
    case Established(id, byteswap, mem) =>
      if id in s.used then None
      else Some(s.(conns := s.conns[id := NewConn(id, byteswap, mem).(status := Open)], used := s.used + {id}))
    case Received(id, mem) =>
      if id !in s.conns then None else Some(s.(conns := s.conns[id := s.conns[id].(mem := mem)]))
    case Request(id, m, at) =>
      if id !in s.conns || !Contains(s.conns[id].mem, at, m) then None
      else
        var t := LogRequest(s.p, s.conns[id], m, at);
        if t.None? then None else Some(s.(p := t.value.p, conns := s.conns[id := t.value.c]))
    case Response(id, m) =>
      if id !in s.conns then None
      else
        var l := LogResponse(s.p, s.conns[id], m);
        if l.None? then None else Some(s.(p := l.value.p, conns := s.conns[id := l.value.c]))
    case Gone(id) => Some(s.(conns := s.conns - {id}))
  }

  function Run(s: System, es: seq<Event>): Option<System> {
    if es == [] then Some(s)
    else
      var before := Run(s, es[..|es| - 1]);
      if before.None? then None else Step(before.value, es[|es| - 1])
  }
}
