/**
 The growable byte buffer that sits between two sockets.

 `Buffer` is the state of the buffer as a value, `SocketBuffer` the object that changes it in place.
 Bytes at and after the read mark are what earlier messages left there: they are never cleared, and
 the framing loops can look at them, so the state keeps them.
 */
module SocketBuffers {
  import opened Bytes

  const BLOCK_SZ: nat := 2048

  /** `parsed` counts from `written`: the bytes ready to be sent are the first `parsed` of `Data()`. */
  datatype Buffer = Buffer(store: seq<byte>, read: nat, parsed: nat, written: nat, next: Option<nat>) {

    predicate Valid() {
      && written + parsed <= read <= |store|
      && |store| % BLOCK_SZ == 0
    }

    predicate Empty() { read == 0 }

    function Size(): nat requires Valid() { read - written }

    function Unparsed(): nat requires Valid() { Size() - parsed }

    function Capacity(): nat requires Valid() { |store| - read }

    /** Received and not yet sent. */
    function Data(): seq<byte> requires Valid() { store[written..read] }

    /** Received and not yet framed. */
    function Pending(): seq<byte> requires Valid() { store[written + parsed..read] }

    predicate Incomplete() requires Valid() {
      Unparsed() > 0 && (next.None? || Unparsed() < next.value)
    }

    predicate ReadReady() requires Valid() { Empty() || Incomplete() }

    predicate WriteReady() { !Empty() && parsed > 0 }
  }

  function RoundUp(n: nat): (r: nat)
    ensures r % BLOCK_SZ == 0 && n <= r < n + BLOCK_SZ
  {
    n + (BLOCK_SZ - n % BLOCK_SZ) % BLOCK_SZ
  }

  /** The store once it has room for `n` more bytes; new room is zero filled. A store that grows gets
      the least multiple of the block size that holds the request, and keeps every byte. */
  function Grown(b: Buffer, n: nat): (store: seq<byte>)
    requires b.Valid()
    ensures |store| % BLOCK_SZ == 0 && b.store <= store
    ensures b.read + n <= |store|
    ensures |store| == |b.store| || |store| < b.read + n + BLOCK_SZ
  {
    if n <= b.Capacity() then b.store
    else
      var rawSz := |b.store| + (n - b.Capacity());
      b.store + seq(RoundUp(rawSz) - |b.store|, _ => 0)
  }

  /** Appends `chunk` at the read mark, after making room for `room` bytes. */
  function Append(b: Buffer, chunk: seq<byte>, room: nat): (b': Buffer)
    requires b.Valid() && |chunk| <= room
    ensures b'.Valid()
  {
    var store := Grown(b, room);
    b.(store := store[..b.read] + chunk + store[b.read + |chunk|..], read := b.read + |chunk|)
  }

  /** How much the next read asks of the socket. `None` when the remembered message is shorter than
      what is already held: the source's unsigned difference then wraps, and nothing after is defined. */
  function BytesToRead(b: Buffer): Option<nat>
    requires b.Valid()
  {
    if b.next.None? then Some(b.Capacity())
    else if b.next.value < b.Size() then None
    else Some(b.next.value - b.Size())
  }

  function Clear(b: Buffer): Buffer {
    b.(read := 0, parsed := 0, written := 0, next := None)
  }

  /** Sends the first `n` parsed bytes; a drained buffer starts over at its front. */
  function Sent(b: Buffer, n: nat): (b': Buffer)
    requires b.Valid() && n <= b.parsed
    ensures b'.Valid()
  {
    var b' := b.(written := b.written + n, parsed := b.parsed - n);
    if b'.written == b'.read then Clear(b') else b'
  }

  /** Drops the first `n` held bytes without regard to what is parsed. */
  function Unloaded(b: Buffer, n: nat): Buffer
    requires b.Valid() && n <= b.Size()
  {
    var b' := b.(written := b.written + n);
    if b'.written == b'.read then Clear(b') else b'
  }

  function Marked(b: Buffer): (b': Buffer)
    requires b.Valid() && b.next.Some? && b.next.value <= b.Unparsed()
    ensures b'.Valid()
  {
    b.(parsed := b.parsed + b.next.value, next := None)
  }

  // ---- the buffer is a byte queue with a parsed prefix ----

  lemma AppendEnqueues(b: Buffer, chunk: seq<byte>, room: nat)
    requires b.Valid() && |chunk| <= room
    ensures Append(b, chunk, room).Data() == b.Data() + chunk
    ensures Append(b, chunk, room).Pending() == b.Pending() + chunk
    ensures Append(b, chunk, room).store[..b.read] == b.store[..b.read]
  {
    var store := Grown(b, room);
    assert store[..b.read] == b.store[..b.read];
    var b' := Append(b, chunk, room);
    assert b'.store[..b'.read] == b.store[..b.read] + chunk;
    assert b'.Data() == (b.store[..b.read] + chunk)[b.written..];
    assert b'.Pending() == (b.store[..b.read] + chunk)[b.written + b.parsed..];
  }

  lemma SentDequeues(b: Buffer, n: nat)
    requires b.Valid() && n <= b.parsed
    ensures b.Data() == b.Data()[..n] + Sent(b, n).Data()
    ensures Sent(b, n).Pending() == b.Pending()
    ensures Sent(b, n).parsed == b.parsed - n
    ensures b.next.None? || b.Pending() != [] ==> Sent(b, n).next == b.next
  {
    var b' := Sent(b, n);
    if b.written + n == b.read {
      assert b.Data()[..n] == b.Data();
    } else {
      assert b'.Data() == b.Data()[n..];
    }
  }

  lemma MarkedMovesPending(b: Buffer)
    requires b.Valid() && b.next.Some? && b.next.value <= b.Unparsed()
    ensures Marked(b).Data() == b.Data()
    ensures b.Pending() == b.Pending()[..b.next.value] + Marked(b).Pending()
  {
    assert Marked(b).Pending() == b.Pending()[b.next.value..];
  }

  class SocketBuffer {
    var buffer: array<byte>
    var bytesRead: nat
    var bytesParsed: nat
    var bytesWritten: nat
    var nextMessageSz: Option<nat>

    ghost function View(): Buffer
      reads this, buffer
    {
      Buffer(buffer[..], bytesRead, bytesParsed, bytesWritten, nextMessageSz)
    }

    ghost predicate Valid()
      reads this, buffer
    {
      View().Valid()
    }

    constructor ()
      ensures Valid() && fresh(buffer)
      ensures View() == Buffer(seq(BLOCK_SZ, _ => 0), 0, 0, 0, None)
    {
      buffer := new byte[BLOCK_SZ](_ => 0);
      bytesRead, bytesParsed, bytesWritten, nextMessageSz := 0, 0, 0, None;
      new;
      assert buffer[..] == seq(BLOCK_SZ, _ => 0);
    }

    method SetMessageSize(sz: nat)
      requires nextMessageSz.None?
      modifies this`nextMessageSz
      ensures View() == old(View()).(next := Some(sz))
    {
      nextMessageSz := Some(sz);
    }

    method MarkMessageParsed()
      requires Valid() && nextMessageSz.Some? && nextMessageSz.value <= View().Unparsed()
      modifies this`bytesParsed, this`nextMessageSz
      ensures Valid() && View() == Marked(old(View()))
    {
      bytesParsed := bytesParsed + nextMessageSz.value;
      nextMessageSz := None;
    }

    /** What the next read asks the socket for. */
    method NextReadSize() returns (want: Option<nat>)
      requires Valid()
      ensures want == BytesToRead(View())
    {
      var size := bytesRead - bytesWritten;
      if nextMessageSz.None? {
        return Some(buffer.Length - bytesRead);
      }
      return if nextMessageSz.value < size then None else Some(nextMessageSz.value - size);
    }

    /** Makes room for `n` bytes after the read mark. */
    method Reserve(n: nat)
      requires Valid()
      modifies this`buffer
      ensures Valid() && View() == old(View()).(store := Grown(old(View()), n))
      ensures buffer == old(buffer) || fresh(buffer)
    {
      var capacity := buffer.Length - bytesRead;
      if n > capacity {
        var rawSz := buffer.Length + (n - capacity);
        var bigger := new byte[rawSz + (BLOCK_SZ - rawSz % BLOCK_SZ) % BLOCK_SZ](_ => 0);
        for i := 0 to buffer.Length
          invariant buffer == old(buffer) && buffer[..] == old(buffer[..])
          invariant forall j :: 0 <= j < i ==> bigger[j] == buffer[j]
          invariant forall j :: i <= j < bigger.Length ==> bigger[j] == 0
        {
          bigger[i] := buffer[i];
        }
        buffer := bigger;
        assert buffer[..] == Grown(old(View()), n);
      }
    }

    /** Copies `chunk` to the read mark and moves the mark past it. */
    method Store(chunk: seq<byte>)
      requires Valid() && |chunk| <= View().Capacity()
      modifies this`bytesRead, buffer
      ensures Valid() && View() == Append(old(View()), chunk, |chunk|)
    {
      for i := 0 to |chunk|
        invariant bytesRead == old(bytesRead)
        invariant forall j :: 0 <= j < buffer.Length ==>
          buffer[j] == if bytesRead <= j < bytesRead + i then chunk[j - bytesRead] else old(buffer[j])
      {
        buffer[bytesRead + i] := chunk[i];
      }
      ghost var was := old(View());
      assert buffer[..] == was.store[..bytesRead] + chunk + was.store[bytesRead + |chunk|..];
      bytesRead := bytesRead + |chunk|;
    }

    /** Asks the socket for `want` bytes; `received` is what it gave, `None` a failed call. */
    method Read(want: nat, received: Option<seq<byte>>) returns (n: nat, failed: bool)
      requires Valid() && (received.Some? ==> |received.value| <= want)
      modifies this, buffer
      ensures Valid() && (buffer == old(buffer) || fresh(buffer))
      ensures failed == received.None?
      ensures n == if failed then 0 else |received.value|
      ensures View() == Append(old(View()), if failed then [] else received.value, want)
    {
      Reserve(want);
      ghost var mid := View();
      if received.None? {
        assert mid.store[..mid.read] + [] + mid.store[mid.read..] == mid.store;
        return 0, true;
      }
      Store(received.value);
      return |received.value|, false;
    }

    /** Copies bytes in from memory. */
    method Load(input: seq<byte>) returns (n: nat)
      requires Valid() && |input| > 0
      modifies this, buffer
      ensures Valid() && (buffer == old(buffer) || fresh(buffer))
      ensures n == |input| && View() == Append(old(View()), input, |input|)
    {
      Reserve(|input|);
      Store(input);
      n := |input|;
    }

    method ClearAll()
      modifies this`bytesRead, this`bytesParsed, this`bytesWritten, this`nextMessageSz
      ensures View() == Clear(old(View()))
    {
      bytesRead, bytesParsed, bytesWritten, nextMessageSz := 0, 0, 0, None;
    }

    /** Sends `n` parsed bytes from the front. `accepted` is false when the socket call fails; a call
        that succeeds takes all of them. */
    method Write(n: nat, accepted: bool) returns (sent: seq<byte>)
      requires Valid() && n <= bytesParsed
      modifies this`bytesRead, this`bytesParsed, this`bytesWritten, this`nextMessageSz
      ensures Valid()
      ensures accepted ==> sent == old(View()).Data()[..n] && View() == Sent(old(View()), n)
      ensures !accepted ==> sent == [] && View() == old(View())
    {
      if !accepted {
        return [];
      }
      sent := buffer[bytesWritten..bytesWritten + n];
      assert sent == old(View()).Data()[..n];
      bytesWritten, bytesParsed := bytesWritten + n, bytesParsed - n;
      if bytesWritten == bytesRead {
        ClearAll();
      }
    }

    /** Takes `n` held bytes from the front. Draining the buffer demands that none of them is parsed. */
    method Unload(n: nat) returns (output: seq<byte>)
      requires Valid() && n <= View().Size() && (n == View().Size() ==> bytesParsed == 0)
      modifies this`bytesRead, this`bytesParsed, this`bytesWritten, this`nextMessageSz
      ensures output == old(View()).Data()[..n] && View() == Unloaded(old(View()), n)
      ensures old(bytesParsed) == 0 ==> Valid() && old(View()).Data() == output + View().Data()
    {
      output := buffer[bytesWritten..bytesWritten + n];
      assert output == old(View()).Data()[..n];
      bytesWritten := bytesWritten + n;
      if bytesWritten == bytesRead {
        ClearAll();
      }
      if old(bytesParsed) == 0 {
        assert old(View()).Data() == output + View().Data();
      }
    }
  }
}
