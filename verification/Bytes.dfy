/**
 Octets, padded lengths and byte orders of the X11 encoding.

 The relay never converts a message: it reads a length or a sequence number in the host's order and
 swaps it when the connection's byte order differs from the host's.
 */
module Bytes {

  type byte = x: int | 0 <= x < 256

  datatype Option<+T> = None | Some(value: T)

  datatype ByteOrder = LsbFirst | MsbFirst

  /** Bytes to add so that a length becomes a multiple of the alignment unit. */
  const ALIGN := 4

  /** Sizes are 64-bit and unsigned. */
  const SIZE_MOD: nat := 0x1_0000_0000_0000_0000

  function Pad(n: nat): (r: nat)
    ensures n <= r < n + ALIGN && r % ALIGN == 0
  {
    n + (ALIGN - n % ALIGN) % ALIGN
  }

  function Units(n: nat): nat { Pad(n) / ALIGN }

  /** Two octets of `s` at `i`, read in byte order `o`. */
  function U16(o: ByteOrder, s: seq<byte>, i: nat): (n: nat)
    requires i + 2 <= |s|
    ensures n < 0x1_0000
  {
    var first: nat, second: nat := s[i], s[i + 1];
    if o.LsbFirst? then first + 256 * second else 256 * first + second
  }

  /** Four octets of `s` at `i`, read in byte order `o`. */
  function U32(o: ByteOrder, s: seq<byte>, i: nat): (n: nat)
    requires i + 4 <= |s|
    ensures n < 0x1_0000_0000
  {
    if o.LsbFirst? then U16(o, s, i) + 0x1_0000 * U16(o, s, i + 2)
    else 0x1_0000 * U16(o, s, i) + U16(o, s, i + 2)
  }

  /** The first byte is the least one in one order, and reversing the bytes gives the other. */
  lemma FourBytes(a: nat, b: nat, c: nat, d: nat)
    requires a < 0x100 && b < 0x100 && c < 0x100 && d < 0x100
    ensures U16(LsbFirst, [a, b], 0) == U16(MsbFirst, [b, a], 0) == a + 0x100 * b
    ensures U32(LsbFirst, [a, b, c, d], 0) == U32(MsbFirst, [d, c, b, a], 0) == a + 0x100 * b + 0x1_0000 * c + 0x100_0000 * d
  {
  }

  function Enc16(o: ByteOrder, n: nat): (s: seq<byte>)
    requires n < 0x1_0000
    ensures |s| == 2 && U16(o, s, 0) == n
  {
    if o.LsbFirst? then [n % 256, n / 256] else [n / 256, n % 256]
  }

  function Enc32(o: ByteOrder, n: nat): (s: seq<byte>)
    requires n < 0x1_0000_0000
    ensures |s| == 4 && U32(o, s, 0) == n
  {
    var low, high := n % 0x1_0000, n / 0x1_0000;
    var s := if o.LsbFirst? then Enc16(o, low) + Enc16(o, high) else Enc16(o, high) + Enc16(o, low);
    assert s[..2] == (if o.LsbFirst? then Enc16(o, low) else Enc16(o, high));
    assert s[2..] == (if o.LsbFirst? then Enc16(o, high) else Enc16(o, low));
    assert U16(o, s, 0) == U16(o, s[..2], 0) && U16(o, s, 2) == U16(o, s[2..], 0);
    s
  }

  /** What the compiler's byte-swap intrinsic does to a 16-bit value. */
  function Swap16(n: nat): (r: nat)
    requires n < 0x1_0000
    ensures r < 0x1_0000
  {
    n % 256 * 256 + n / 256
  }

  /** What the compiler's byte-swap intrinsic does to a 32-bit value. */
  function Swap32(n: nat): (r: nat)
    requires n < 0x1_0000_0000
    ensures r < 0x1_0000_0000
  {
    Swap16(n % 0x1_0000) * 0x1_0000 + Swap16(n / 0x1_0000)
  }

  /** The byte order a connection uses, given the host's and the connection's swap flag. */
  function OrderOf(host: ByteOrder, byteswap: bool): ByteOrder {
    if !byteswap then host else if host.LsbFirst? then MsbFirst else LsbFirst
  }

  /** A raw load in the host's order, swapped when the connection's flag says so. */
  function Ordered16(host: ByteOrder, byteswap: bool, s: seq<byte>, i: nat): nat
    requires i + 2 <= |s|
  {
    if byteswap then Swap16(U16(host, s, i)) else U16(host, s, i)
  }

  function Ordered32(host: ByteOrder, byteswap: bool, s: seq<byte>, i: nat): nat
    requires i + 4 <= |s|
  {
    if byteswap then Swap32(U32(host, s, i)) else U32(host, s, i)
  }

  /** Load-then-swap reads the connection's own byte order, whatever the host's is. */
  lemma OrderedIsConnectionOrder(host: ByteOrder, client: ByteOrder, s: seq<byte>, i: nat)
    requires i + 4 <= |s|
    ensures OrderOf(host, host != client) == client
    ensures Ordered16(host, host != client, s, i) == U16(client, s, i)
    ensures Ordered32(host, host != client, s, i) == U32(client, s, i)
  {
    OrderedAt(host, host != client, s, i);
  }

  lemma OrderedAt(host: ByteOrder, byteswap: bool, s: seq<byte>, i: nat)
    ensures i + 2 <= |s| ==> Ordered16(host, byteswap, s, i) == U16(OrderOf(host, byteswap), s, i)
    ensures i + 4 <= |s| ==> Ordered32(host, byteswap, s, i) == U32(OrderOf(host, byteswap), s, i)
  {
    if i + 2 <= |s| {
      SwappedAt(host, s, i);
    }
    if i + 4 <= |s| {
      SwappedAt(host, s, i + 2);
      if host.LsbFirst? {
        Swap32Halves(U16(host, s, i), U16(host, s, i + 2));
      } else {
        Swap32Halves(U16(host, s, i + 2), U16(host, s, i));
      }
    }
  }

  lemma OneInEitherOrder(host: ByteOrder, byteswap: bool, s: seq<byte>, i: nat)
    requires i + 2 <= |s| && U16(OrderOf(host, byteswap), s, i) == 1
    ensures Ordered16(host, byteswap, s, i) == 1 && U16(host, s, i) != 0
  {
    OrderedAt(host, byteswap, s, i);
  }

  lemma SwappedAt(host: ByteOrder, s: seq<byte>, i: nat)
    requires i + 2 <= |s|
    ensures Swap16(U16(host, s, i)) == U16(OrderOf(host, true), s, i)
  {
    Swap16Undoes(s[i], s[i + 1]);
    Swap16Undoes(s[i + 1], s[i]);
  }

  lemma Swap16Undoes(a: nat, b: nat)
    requires a < 256 && b < 256
    ensures Swap16(a + 256 * b) == b + 256 * a
  {
  }

  lemma Swap32Halves(low: nat, high: nat)
    requires low < 0x1_0000 && high < 0x1_0000
    ensures Swap32(low + 0x1_0000 * high) == Swap16(low) * 0x1_0000 + Swap16(high)
  {
    assert (low + 0x1_0000 * high) % 0x1_0000 == low;
    assert (low + 0x1_0000 * high) / 0x1_0000 == high;
  }

  /** The bytes of a plain string. */
  function Ascii(s: string): (r: seq<byte>)
    requires forall ch <- s :: ch < 128 as char
  {
    seq<byte>(|s|, i requires 0 <= i < |s| => assert s[i] in s; s[i] as byte)
  }

  /** The part of `s` before its first zero byte, which is what a C string keeps. */
  function CString(s: seq<byte>): seq<byte> {
    if s == [] || s[0] == 0 then [] else [s[0]] + CString(s[1..])
  }

  lemma {:induction false} CStringEnds(s: seq<byte>)
    ensures CString(s) <= s && 0 !in CString(s) && (|CString(s)| < |s| ==> s[|CString(s)|] == 0)
  {
    if s != [] && s[0] != 0 {
      CStringEnds(s[1..]);
    }
  }

  lemma {:induction false} CStringKeepsAll(s: seq<byte>)
    ensures CString(s) == s <==> 0 !in s
  {
    if s != [] {
      CStringKeepsAll(s[1..]);
      assert s == [s[0]] + s[1..];
    }
  }

  lemma Regroup<T>(a: seq<T>, b: seq<T>, c: seq<T>)
    ensures a + b + c == a + (b + c) && (a + b + c)[|a|..] == b + c
  {
  }
}
