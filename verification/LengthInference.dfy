/**
 Requests that end in a list without a count: the count is inferred from the request's length.

 The list parser takes its count as a 16-bit number, so a request in the extended length form can hold
 more items than it can be told of. `None` means that an assertion fails and the process ends.
 */
module LengthInference {
  import opened Bytes
  import opened Wire
  import opened Records
  import opened Tracking

  const CARD16_MOD: nat := 0x1_0000

  /** The bytes before the list: `fixed` in the 16-bit form, one unit more in the extended form. */
  function ListAt(fixed: nat, big: bool): nat { if big then fixed + ALIGN else fixed }

  /** The length field, in aligned units. */
  function LengthUnits(o: ByteOrder, m: seq<byte>): nat
    requires |m| >= 8
  {
    if U16(o, m, 2) != 0 then U16(o, m, 2) else U32(o, m, 4)
  }

  /** The count that PolyPoint, PolySegment and StoreColors pass to the list parser. */
  function InferredCount(units: nat, listAt: nat, itemSz: nat): nat
    requires listAt <= ALIGN * units && itemSz > 0
  {
    (ALIGN * units - listAt) / itemSz % CARD16_MOD
  }

  /** The list at `s`, and the assertion that the length field covers what was taken. */
  function ParseInferred<T>(member: Member<T>, ct: nat, listAt: nat, units: nat, s: seq<byte>): Option<seq<T>> {
    var list := ParseList(member, ct, s);
    if list.None? || units != Units(listAt + Pad(list.value.used)) then None else Some(list.value.value)
  }

  /** A list of items of `sz` bytes behind `fixed` bytes. */
  function ParseListRequest<T>(o: ByteOrder, member: Member<T>, sz: nat, fixed: nat, m: seq<byte>): Option<seq<T>>
    requires sz > 0
  {
    if |m| < 8 then None
    else
      var listAt, units := ListAt(fixed, U16(o, m, 2) == 0), LengthUnits(o, m);
      if |m| < listAt || ALIGN * units < listAt then None
      else ParseInferred(member, InferredCount(units, listAt, sz), listAt, units, m[listAt..])
  }

  predicate Uniform(codes: seq<seq<byte>>, sz: nat) { forall i :: 0 <= i < |codes| ==> |codes[i]| == sz }

  lemma {:induction false} UniformSize(codes: seq<seq<byte>>, sz: nat)
    requires Uniform(codes, sz)
    ensures |Flatten(codes)| == sz * |codes|
  {
    if codes != [] {
      UniformSize(codes[1..], sz);
      assert |Flatten(codes)| == |codes[0]| + |Flatten(codes[1..])|;
      assert sz * |codes| == sz + sz * (|codes| - 1);
    }
  }

  lemma HeaderReads(o: ByteOrder, opcode: byte, detail: byte, body: seq<byte>, big: bool)
    requires Encodable(body, big) && |body| >= ALIGN
    ensures var m := EncodeRequest(o, opcode, detail, body, big);
      && |m| >= 8 && (U16(o, m, 2) == 0 <==> big)
      && ALIGN * LengthUnits(o, m) == |m| && m[ListAt(4, big)..] == body
  {
    var m := EncodeRequest(o, opcode, detail, body, big);
    if big {
      var len := Enc32(o, 2 + |body| / ALIGN);
      assert m[4..8] == len && U32(o, m, 4) == U32(o, len, 0) && U16(o, m, 2) == 0;
    } else {
      var len := Enc16(o, 1 + |body| / ALIGN);
      assert m[2..4] == len && U16(o, m, 2) == U16(o, len, 0);
    }
  }

  lemma Times(sz: nat, n: nat, ct: nat)
    requires sz > 0 && ct <= n
    ensures sz * ct <= sz * n
    ensures sz * ct == sz * n <==> ct == n
  {
    if ct < n {
      assert sz * (n - ct) > 0;
    }
  }

  lemma WholeItems(sz: nat, ct: nat)
    requires sz % ALIGN == 0
    ensures sz * ct % ALIGN == 0
  {
    assert sz * ct == ALIGN * (sz / ALIGN * ct);
  }

  lemma Quotient(sz: nat, n: nat)
    requires sz > 0
    ensures sz * n / sz == n
  {
    var q := sz * n / sz;
    assert sz * (q + 1) == sz * q + sz && sz * (n + 1) == sz * n + sz;
    if q < n {
      Times(sz, n, q + 1);
    } else if q > n {
      Times(sz, q, n + 1);
    }
  }

  /** What a count makes of a list: its first items. */
  lemma ListTaken<T(!new)>(member: Member<T>, sz: nat, items: seq<T>, codes: seq<seq<byte>>, ct: nat) returns (used: nat)
    requires sz > 0 && sz % ALIGN == 0 && AllRead(member, codes, items) && Uniform(codes, sz) && ct <= |items|
    ensures ParseList(member, ct, Flatten(codes)) == Some(Parsed(items[..ct], used))
    ensures used % ALIGN == 0 && used <= |Flatten(codes)| && (used == |Flatten(codes)| <==> ct == |items|)
  {
    var front, back := codes[..ct], codes[ct..];
    assert codes == front + back;
    FlattenAppend(front, back);
    ListRoundTrip(member, items[..ct], front, Flatten(back));
    UniformSize(front, sz);
    UniformSize(codes, sz);
    Times(sz, |items|, ct);
    WholeItems(sz, ct);
    used := sz * ct;
  }

  lemma InferredFrom<T>(member: Member<T>, ct: nat, listAt: nat, units: nat, s: seq<byte>, items: seq<T>, used: nat)
    requires listAt % ALIGN == 0 && ALIGN * units == listAt + |s|
    requires ParseList(member, ct, s) == Some(Parsed(items, used)) && used % ALIGN == 0 && used <= |s|
    ensures ParseInferred(member, ct, listAt, units, s) == if used == |s| then Some(items) else None
  {
  }

  /** A list parsed with the count that reaches the list parser. */
  lemma ListReads<T(!new)>(member: Member<T>, sz: nat, items: seq<T>, codes: seq<seq<byte>>, listAt: nat, units: nat)
    requires sz > 0 && sz % ALIGN == 0 && AllRead(member, codes, items) && Uniform(codes, sz)
    requires listAt % ALIGN == 0 && ALIGN * units == listAt + |Flatten(codes)|
    ensures ParseInferred(member, |items| % CARD16_MOD, listAt, units, Flatten(codes))
      == if |items| < CARD16_MOD then Some(items) else None
  {
    var ct := |items| % CARD16_MOD;
    var used := ListTaken(member, sz, items, codes, ct);
    InferredFrom(member, ct, listAt, units, Flatten(codes), items[..ct], used);
    assert ct == |items| ==> items[..ct] == items;
  }

  lemma CountOf(codes: seq<seq<byte>>, sz: nat, listAt: nat, units: nat)
    requires sz > 0 && Uniform(codes, sz) && ALIGN * units == listAt + |Flatten(codes)|
    ensures InferredCount(units, listAt, sz) == |codes| % CARD16_MOD
  {
    UniformSize(codes, sz);
    Quotient(sz, |codes|);
  }

  lemma SkipFields(m: seq<byte>, at: nat, fields: seq<byte>, list: seq<byte>)
    requires at <= |m| && m[at..] == fields + list
    ensures at + |fields| + |list| == |m| && m[at + |fields|..] == list
  {
    assert m[at..][|fields|..] == m[at + |fields|..];
  }

  /** A request whose list starts at `listAt` and is `list`, by what its length field says. */
  predicate ListsAt(o: ByteOrder, fixed: nat, m: seq<byte>, listAt: nat, units: nat, list: seq<byte>) {
    && |m| >= 8 && units == LengthUnits(o, m) && listAt == ListAt(fixed, U16(o, m, 2) == 0) <= |m|
    && ALIGN * units == listAt + |list| && m[listAt..] == list
  }

  lemma RequestShape(o: ByteOrder, opcode: byte, detail: byte, fields: seq<byte>, list: seq<byte>, big: bool)
    requires |fields| >= ALIGN && Encodable(fields + list, big)
    ensures var m := EncodeRequest(o, opcode, detail, fields + list, big);
      |m| >= 8 && ListsAt(o, 4 + |fields|, m, ListAt(4 + |fields|, big), LengthUnits(o, m), list)
  {
    HeaderReads(o, opcode, detail, fields + list, big);
    SkipFields(EncodeRequest(o, opcode, detail, fields + list, big), ListAt(4, big), fields, list);
  }

  lemma RequestIsList<T>(o: ByteOrder, member: Member<T>, sz: nat, fixed: nat, m: seq<byte>, listAt: nat, units: nat, list: seq<byte>)
    requires sz > 0 && ListsAt(o, fixed, m, listAt, units, list)
    ensures listAt <= ALIGN * units
    ensures ParseListRequest(o, member, sz, fixed, m) == ParseInferred(member, InferredCount(units, listAt, sz), listAt, units, list)
  {
  }

  lemma ListOfRequest<T(!new)>(o: ByteOrder, fixed: nat, m: seq<byte>, listAt: nat, units: nat,
                               member: Member<T>, sz: nat, items: seq<T>, codes: seq<seq<byte>>)
    requires sz > 0 && sz % ALIGN == 0 && AllRead(member, codes, items) && Uniform(codes, sz)
    requires ListsAt(o, fixed, m, listAt, units, Flatten(codes)) && listAt % ALIGN == 0
    ensures ParseListRequest(o, member, sz, fixed, m) == if |items| < CARD16_MOD then Some(items) else None
  {
    RequestIsList(o, member, sz, fixed, m, listAt, units, Flatten(codes));
    CountOf(codes, sz, listAt, units);
    ListReads(member, sz, items, codes, listAt, units);
  }

  /** Whatever items a request lists behind its `fields`, in either byte order and either length form, the
      inferred list is those items and takes the framed size, if and only if they are fewer than 65,536. */
  lemma ListRequestRoundTrip<T(!new)>(
    o: ByteOrder, opcode: byte, detail: byte, fields: seq<byte>, big: bool,
    member: Member<T>, sz: nat, items: seq<T>, codes: seq<seq<byte>>)
    requires sz > 0 && sz % ALIGN == 0 && AllRead(member, codes, items) && Uniform(codes, sz)
    requires |fields| >= ALIGN && |fields| % ALIGN == 0 && Encodable(fields + Flatten(codes), big)
    ensures ParseListRequest(o, member, sz, 4 + |fields|, EncodeRequest(o, opcode, detail, fields + Flatten(codes), big))
      == if |items| < CARD16_MOD then Some(items) else None
  {
    var m := EncodeRequest(o, opcode, detail, fields + Flatten(codes), big);
    RequestShape(o, opcode, detail, fields, Flatten(codes), big);
    ListOfRequest(o, 4 + |fields|, m, ListAt(4 + |fields|, big), LengthUnits(o, m), member, sz, items, codes);
  }

  /** The requests whose items are fixed-layout records: points, segments, colour items. */
  lemma RecordRequestRoundTrip(
    o: ByteOrder, opcode: byte, detail: byte, fields: seq<byte>, big: bool, l: Layout, items: seq<seq<nat>>)
    requires RecordsFit(l, items) && SizeOfLayout(l) > 0 && SizeOfLayout(l) % ALIGN == 0
    requires |fields| >= ALIGN && |fields| % ALIGN == 0 && Encodable(fields + Flatten(EncodeRecords(o, l, items)), big)
    ensures var m := EncodeRequest(o, opcode, detail, fields + Flatten(EncodeRecords(o, l, items)), big);
      ParseListRequest(o, RecordMember(o, l), SizeOfLayout(l), 4 + |fields|, m)
      == if |items| < CARD16_MOD then Some(items) else None
  {
    RecordsRead(o, l, items);
    ListRequestRoundTrip(o, opcode, detail, fields, big, RecordMember(o, l), SizeOfLayout(l), items, EncodeRecords(o, l, items));
  }

  // ---- 16-bit strings ----

  const QUERY_TEXT_EXTENTS_AT: nat := 8

  /** A character is two bytes, whatever the byte order. */
  const CHAR2B := Num(1, Num(1, End))

  /** The length of the string of a QueryTextExtents request, from its padded size and its odd flag. `None` when
      the flag is set and there is nothing: one less than none is then read. */
  function InferredLength(units: nat, listAt: nat, odd: bool): Option<nat>
    requires listAt <= ALIGN * units
  {
    var sz := ALIGN * units - listAt;
    if odd && sz == 0 then None else Some((sz / 2 - (if odd then 1 else 0)) % CARD16_MOD)
  }

  /** The string of a QueryTextExtents request. What is taken of the request is what its length says. */
  function ParseTextRequest(o: ByteOrder, m: seq<byte>): Option<seq<seq<nat>>> {
    if |m| < 8 then None
    else
      var listAt, units := ListAt(QUERY_TEXT_EXTENTS_AT, U16(o, m, 2) == 0), LengthUnits(o, m);
      if |m| < listAt || ALIGN * units < listAt then None
      else
        var length := InferredLength(units, listAt, m[1] != 0);
        if length.None? then None
        else
          var list := ParseList(RecordMember(o, CHAR2B), length.value, m[listAt..]);
          if list.None? then None else Some(list.value.value)
  }

  /** The flag settles what padding leaves open. */
  lemma LengthIs(listAt: nat, n: nat, units: nat)
    requires ALIGN * units == listAt + Pad(2 * n)
    ensures InferredLength(units, listAt, n % 2 == 1) == Some(n % CARD16_MOD)
  {
  }

  lemma FirstRead<T(!new)>(member: Member<T>, codes: seq<seq<byte>>, items: seq<T>, ct: nat, more: seq<byte>)
    requires AllRead(member, codes, items) && ct <= |items|
    ensures var list := ParseList(member, ct, Flatten(codes) + more); list.Some? && list.value.value == items[..ct]
  {
    var front, back := codes[..ct], codes[ct..];
    assert codes == front + back;
    FlattenAppend(front, back);
    ListRoundTrip(member, items[..ct], front, Flatten(back) + more);
    Regroup(Flatten(front), Flatten(back), more);
  }

  /** A string of `n` characters behind the font, padded, with the flag that says whether `n` is odd. */
  function EncodeText(o: ByteOrder, font: seq<byte>, chars: seq<seq<nat>>, big: bool): seq<byte>
    requires RecordsFit(CHAR2B, chars) && Encodable(TextBody(o, font, chars), big)
  {
    EncodeRequest(o, QUERY_TEXT_EXTENTS, if |chars| % 2 == 1 then 1 else 0, TextBody(o, font, chars), big)
  }

  function TextBody(o: ByteOrder, font: seq<byte>, chars: seq<seq<nat>>): seq<byte>
    requires RecordsFit(CHAR2B, chars)
  {
    font + (Flatten(EncodeRecords(o, CHAR2B, chars)) + seq(Pad(2 * |chars|) - 2 * |chars|, _ => 0))
  }

  lemma TextSize(o: ByteOrder, chars: seq<seq<nat>>)
    requires RecordsFit(CHAR2B, chars)
    ensures |Flatten(EncodeRecords(o, CHAR2B, chars))| == 2 * |chars|
  {
    UniformSize(EncodeRecords(o, CHAR2B, chars), 2);
  }

  lemma TextIs(o: ByteOrder, m: seq<byte>, listAt: nat, units: nat, list: seq<byte>, ct: nat, chars: seq<seq<nat>>)
    requires ListsAt(o, QUERY_TEXT_EXTENTS_AT, m, listAt, units, list) && InferredLength(units, listAt, m[1] != 0) == Some(ct)
    requires var taken := ParseList(RecordMember(o, CHAR2B), ct, list); taken.Some? && taken.value.value == chars
    ensures ParseTextRequest(o, m) == Some(chars)
  {
  }

  lemma TextOf(o: ByteOrder, m: seq<byte>, listAt: nat, units: nat, chars: seq<seq<nat>>, pad: seq<byte>)
    requires RecordsFit(CHAR2B, chars) && |pad| == Pad(2 * |chars|) - 2 * |chars|
    requires ListsAt(o, QUERY_TEXT_EXTENTS_AT, m, listAt, units, Flatten(EncodeRecords(o, CHAR2B, chars)) + pad)
    requires (m[1] != 0) == (|chars| % 2 == 1)
    ensures ParseTextRequest(o, m) == Some(chars[..|chars| % CARD16_MOD])
  {
    var codes, ct := EncodeRecords(o, CHAR2B, chars), |chars| % CARD16_MOD;
    TextSize(o, chars);
    LengthIs(listAt, |chars|, units);
    RecordsRead(o, CHAR2B, chars);
    FirstRead(RecordMember(o, CHAR2B), codes, chars, ct, pad);
    TextIs(o, m, listAt, units, Flatten(codes) + pad, ct, chars[..ct]);
  }

  lemma FirstOnly<T>(s: seq<T>, n: nat)
    requires n > 0
    ensures s[..|s| % n] == s <==> |s| < n
  {
    if |s| >= n {
      assert |s[..|s| % n]| < |s|;
    }
  }

  /** Whatever string a QueryTextExtents request holds, of odd or even length, in either byte order and either
      length form, what is read of it are its first characters, as many as its length modulo 65,536; so it is
      read back if and only if it is shorter than that. */
  lemma TextRequestRoundTrip(o: ByteOrder, font: seq<byte>, chars: seq<seq<nat>>, big: bool)
    requires |font| == 4 && RecordsFit(CHAR2B, chars) && Encodable(TextBody(o, font, chars), big)
    ensures var m := EncodeText(o, font, chars, big);
      && ParseTextRequest(o, m) == Some(chars[..|chars| % CARD16_MOD])
      && (ParseTextRequest(o, m) == Some(chars) <==> |chars| < CARD16_MOD)
  {
    EncodedText(o, font, chars, big);
    FirstOnly(chars, CARD16_MOD);
  }

  lemma EncodedText(o: ByteOrder, font: seq<byte>, chars: seq<seq<nat>>, big: bool)
    requires |font| == 4 && RecordsFit(CHAR2B, chars) && Encodable(TextBody(o, font, chars), big)
    ensures ParseTextRequest(o, EncodeText(o, font, chars, big)) == Some(chars[..|chars| % CARD16_MOD])
  {
    var pad := seq(Pad(2 * |chars|) - 2 * |chars|, _ => 0);
    var m, list := EncodeText(o, font, chars, big), Flatten(EncodeRecords(o, CHAR2B, chars)) + pad;
    RequestShape(o, QUERY_TEXT_EXTENTS, if |chars| % 2 == 1 then 1 else 0, font, list, big);
    TextOf(o, m, ListAt(QUERY_TEXT_EXTENTS_AT, big), LengthUnits(o, m), chars, pad);
  }

  // ---- a sibling that computes it differently ----

  const ARC_SZ: nat := 12
  const POLY_ARC_AT: nat := 12

  /** PolyArc subtracts bytes from units, in unsigned arithmetic. */
  function PolyArcCount(units: nat, big: bool): nat {
    (units + SIZE_MOD - ListAt(POLY_ARC_AT, big)) % SIZE_MOD / ARC_SZ % CARD16_MOD
  }

  /** ... so of a request of `n` arcs it counts a quarter of those beyond the first three or four, or, if there are not
      that many, a number that has wrapped: never the number of arcs. */
  lemma PolyArcNeverCounts(n: nat, units: nat, big: bool)
    requires ALIGN * units == ListAt(POLY_ARC_AT, big) + ARC_SZ * n && units < 0x1_0000_0000
    ensures PolyArcCount(units, big) != n
    ensures var k := if big then 4 else 3;
      PolyArcCount(units, big)
      == if n >= k then (n - k) / 4 % 0x1_0000 else (0x1_0000_0000_0000_0000 - 3 * (k - n)) / 12 % 0x1_0000
  {
    var k := if big then 4 else 3;
    assert units == ListAt(POLY_ARC_AT, big) / ALIGN + 3 * n == k + 3 * n && ListAt(POLY_ARC_AT, big) == 4 * k;
    Wrapped(units, k, n);
  }

  lemma Wrapped(units: nat, k: nat, n: nat)
    requires units == k + 3 * n < 0x1_0000_0000 && 3 <= k <= 4
    ensures var ct := (units + SIZE_MOD - 4 * k) % SIZE_MOD / 12;
      ct == if n >= k then (n - k) / 4 else (SIZE_MOD - 3 * (k - n)) / 12
  {
    if n >= k {
      assert units + SIZE_MOD - 4 * k == 3 * (n - k) + SIZE_MOD;
      Thirds(n - k);
    } else {
      assert units + SIZE_MOD - 4 * k == SIZE_MOD - 3 * (k - n);
    }
  }

  lemma Thirds(n: nat)
    ensures 3 * n / 12 == n / 4
  {
  }
}
