/**
 Fixed-layout records and counted lists of them, as the X protocol encoding nests them.

 A fixed part is described by its layout, so that one round trip covers every record.
 */
module Records {
  import opened Bytes
  import opened Wire

  /** Numeric and ignored fields, by width in bytes. */
  datatype Layout = End | Num(width: nat, rest: Layout) | Unused(width: nat, rest: Layout)

  function SizeOfLayout(l: Layout): nat {
    match l
    case End => 0
    case Num(w, rest) => w + SizeOfLayout(rest)
    case Unused(w, rest) => w + SizeOfLayout(rest)
  }

  function Nums(l: Layout): nat {
    match l
    case End => 0
    case Num(_, rest) => 1 + Nums(rest)
    case Unused(_, rest) => Nums(rest)
  }

  function Limit(width: nat): nat {
    if width == 1 then 0x100 else if width == 2 then 0x1_0000 else if width == 4 then 0x1_0000_0000 else 0
  }

  /** One value in range for each numeric field. */
  predicate Fits(l: Layout, vs: seq<nat>)
    ensures Fits(l, vs) ==> |vs| == Nums(l)
  {
    match l
    case End => vs == []
    case Num(w, rest) => vs != [] && vs[0] < Limit(w) && Fits(rest, vs[1..])
    case Unused(_, rest) => Fits(rest, vs)
  }

  function EncodeNum(o: ByteOrder, width: nat, n: nat): (s: seq<byte>)
    requires n < Limit(width)
    ensures |s| == width
  {
    if width == 1 then [n] else if width == 2 then Enc16(o, n) else Enc32(o, n)
  }

  function DecodeNum(o: ByteOrder, width: nat, s: seq<byte>): nat
    requires width <= |s|
  {
    if width == 1 then s[0] else if width == 2 then U16(o, s, 0) else if width == 4 then U32(o, s, 0) else 0
  }

  function Encode(o: ByteOrder, l: Layout, vs: seq<nat>): (s: seq<byte>)
    requires Fits(l, vs)
    ensures |s| == SizeOfLayout(l)
  {
    match l
    case End => []
    case Num(w, rest) => EncodeNum(o, w, vs[0]) + Encode(o, rest, vs[1..])
    case Unused(w, rest) => seq(w, _ => 0) + Encode(o, rest, vs)
  }

  function Decode(o: ByteOrder, l: Layout, s: seq<byte>): (vs: seq<nat>)
    requires SizeOfLayout(l) <= |s|
    ensures |vs| == Nums(l)
  {
    match l
    case End => []
    case Num(w, rest) => [DecodeNum(o, w, s)] + Decode(o, rest, s[w..])
    case Unused(w, rest) => Decode(o, rest, s[w..])
  }

  lemma {:induction false} FieldsRoundTrip(o: ByteOrder, l: Layout, vs: seq<nat>, more: seq<byte>)
    requires Fits(l, vs)
    ensures Decode(o, l, Encode(o, l, vs) + more) == vs
  {
    var s := Encode(o, l, vs) + more;
    match l
    case End =>
    case Num(w, rest) =>
      Regroup(EncodeNum(o, w, vs[0]), Encode(o, rest, vs[1..]), more);
      NumRoundTrip(o, w, vs[0], Encode(o, rest, vs[1..]) + more);
      FieldsRoundTrip(o, rest, vs[1..], more);
      assert [vs[0]] + vs[1..] == vs;
    case Unused(w, rest) =>
      Regroup(seq(w, _ => 0), Encode(o, rest, vs), more);
      FieldsRoundTrip(o, rest, vs, more);
  }

  lemma NumRoundTrip(o: ByteOrder, w: nat, n: nat, more: seq<byte>)
    requires n < Limit(w)
    ensures DecodeNum(o, w, EncodeNum(o, w, n) + more) == n
  {
    var head := EncodeNum(o, w, n);
    var s := head + more;
    assert forall i :: 0 <= i < w ==> s[i] == head[i];
  }

  /** Layouts made of the widths the protocol uses. */
  predicate Regular(l: Layout) {
    match l
    case End => true
    case Num(w, rest) => Limit(w) > 0 && Regular(rest)
    case Unused(_, rest) => Regular(rest)
  }

  lemma {:induction false} DecodedFits(o: ByteOrder, l: Layout, s: seq<byte>)
    requires SizeOfLayout(l) <= |s| && Regular(l)
    ensures Fits(l, Decode(o, l, s))
  {
    match l
    case End =>
    case Num(w, rest) =>
      DecodedFits(o, rest, s[w..]);
      assert Decode(o, l, s)[1..] == Decode(o, rest, s[w..]);
    case Unused(w, rest) => DecodedFits(o, rest, s[w..]);
  }

  // ---- lists ----

  /** What was parsed, and how many bytes it took. */
  datatype Parsed<+T> = Parsed(value: T, used: nat)

  type Member<T> = seq<byte> -> Option<Parsed<T>>

  /** A fixed part whose last number counts the members that follow it; `head` are the other numbers. */
  datatype Counted<+T> = Counted(head: seq<nat>, members: seq<T>)

  /** Items and bytes found before the rest of a list. */
  function Prepended<T>(items: seq<T>, used: nat, rest: Option<Parsed<seq<T>>>): Option<Parsed<seq<T>>> {
    if rest.None? then None else Some(Parsed(items + rest.value.value, used + rest.value.used))
  }

  /** `ct` members back to back, each starting where the one before it ended. */
  function ParseList<T>(member: Member<T>, ct: nat, s: seq<byte>): Option<Parsed<seq<T>>> {
    if ct == 0 then Some(Parsed([], 0))
    else
      var first := member(s);
      if first.None? || first.value.used > |s| then None
      else Prepended([first.value.value], first.value.used, ParseList(member, ct - 1, s[first.value.used..]))
  }

  /** One list, and after it another. */
  function ParseBoth<A, B>(a: Member<A>, aCt: nat, b: Member<B>, bCt: nat, s: seq<byte>): Option<Parsed<(seq<A>, seq<B>)>> {
    var first := ParseList(a, aCt, s);
    if first.None? || first.value.used > |s| then None
    else
      var second := ParseList(b, bCt, s[first.value.used..]);
      if second.None? then None
      else Some(Parsed((first.value.value, second.value.value), first.value.used + second.value.used))
  }

  function ParseRecord(o: ByteOrder, l: Layout, s: seq<byte>): Option<Parsed<seq<nat>>> {
    if |s| < SizeOfLayout(l) then None else Some(Parsed(Decode(o, l, s), SizeOfLayout(l)))
  }

  function RecordMember(o: ByteOrder, l: Layout): Member<seq<nat>> { s => ParseRecord(o, l, s) }

  function ParseCounted<T>(o: ByteOrder, l: Layout, member: Member<T>, s: seq<byte>): Option<Parsed<Counted<T>>>
    requires Nums(l) > 0
  {
    if |s| < SizeOfLayout(l) then None
    else
      var nums := Decode(o, l, s);
      var last := |nums| - 1;
      var list := ParseList(member, nums[last], s[SizeOfLayout(l)..]);
      if list.None? then None
      else Some(Parsed(Counted(nums[..last], list.value.value), SizeOfLayout(l) + list.value.used))
  }

  function CountedMember<T>(o: ByteOrder, l: Layout, member: Member<T>): Member<Counted<T>>
    requires Nums(l) > 0
  {
    s => ParseCounted(o, l, member, s)
  }

  predicate RecordsFit(l: Layout, rs: seq<seq<nat>>) { forall r <- rs :: Fits(l, r) }

  function EncodeRecords(o: ByteOrder, l: Layout, rs: seq<seq<nat>>): (codes: seq<seq<byte>>)
    requires RecordsFit(l, rs)
    ensures |codes| == |rs| && forall i :: 0 <= i < |rs| ==> codes[i] == Encode(o, l, rs[i])
  {
    seq(|rs|, i requires 0 <= i < |rs| => assert rs[i] in rs; Encode(o, l, rs[i]))
  }

  /** `code` is what `member` reads back as `t`, whatever follows it. */
  ghost predicate Reads<T(!new)>(member: Member<T>, code: seq<byte>, t: T) {
    forall more {:trigger code + more} :: member(code + more) == Some(Parsed(t, |code|))
  }

  ghost predicate AllRead<T(!new)>(member: Member<T>, codes: seq<seq<byte>>, ts: seq<T>) {
    |codes| == |ts| && forall i :: 0 <= i < |ts| ==> Reads(member, codes[i], ts[i])
  }

  /** A list whose members are read back one by one is read back as a whole. */
  lemma {:induction false} ListRoundTrip<T(!new)>(member: Member<T>, ts: seq<T>, codes: seq<seq<byte>>, more: seq<byte>)
    requires AllRead(member, codes, ts)
    ensures ParseList(member, |ts|, Flatten(codes) + more) == Some(Parsed(ts, |Flatten(codes)|))
  {
    if ts != [] {
      var tail := Flatten(codes[1..]) + more;
      ListRoundTrip(member, ts[1..], codes[1..], more);
      assert Reads(member, codes[0], ts[0]);
      assert Flatten(codes) + more == codes[0] + tail;
      assert (codes[0] + tail)[|codes[0]|..] == tail;
      assert [ts[0]] + ts[1..] == ts;
    }
  }

  lemma BothRoundTrip<A(!new), B(!new)>(a: Member<A>, first: seq<A>, firstCodes: seq<seq<byte>>,
                                        b: Member<B>, second: seq<B>, secondCodes: seq<seq<byte>>, more: seq<byte>)
    requires AllRead(a, firstCodes, first) && AllRead(b, secondCodes, second)
    ensures var code := Flatten(firstCodes) + Flatten(secondCodes);
      ParseBoth(a, |first|, b, |second|, code + more) == Some(Parsed((first, second), |code|))
  {
    Regroup(Flatten(firstCodes), Flatten(secondCodes), more);
    ListRoundTrip(a, first, firstCodes, Flatten(secondCodes) + more);
    ListRoundTrip(b, second, secondCodes, more);
  }

  lemma RecordReads(o: ByteOrder, l: Layout, vs: seq<nat>)
    requires Fits(l, vs)
    ensures Reads(RecordMember(o, l), Encode(o, l, vs), vs)
  {
    forall more ensures RecordMember(o, l)(Encode(o, l, vs) + more) == Some(Parsed(vs, SizeOfLayout(l))) {
      FieldsRoundTrip(o, l, vs, more);
    }
  }

  lemma RecordsRead(o: ByteOrder, l: Layout, rs: seq<seq<nat>>)
    requires RecordsFit(l, rs)
    ensures AllRead(RecordMember(o, l), EncodeRecords(o, l, rs), rs)
  {
    forall i | 0 <= i < |rs| ensures Reads(RecordMember(o, l), EncodeRecords(o, l, rs)[i], rs[i]) {
      RecordReads(o, l, rs[i]);
    }
  }

  /** A count, and as many members as it says. */
  lemma CountedReads<T(!new)>(o: ByteOrder, l: Layout, member: Member<T>, c: Counted<T>, codes: seq<seq<byte>>)
    requires Nums(l) > 0 && Fits(l, c.head + [|c.members|]) && AllRead(member, codes, c.members)
    ensures Reads(CountedMember(o, l, member), Encode(o, l, c.head + [|c.members|]) + Flatten(codes), c)
  {
    var code := Encode(o, l, c.head + [|c.members|]) + Flatten(codes);
    forall more ensures ParseCounted(o, l, member, code + more) == Some(Parsed(c, |code|)) {
      CountedReadsBefore(o, l, member, c, codes, more);
    }
  }

  lemma CountedReadsBefore<T(!new)>(o: ByteOrder, l: Layout, member: Member<T>, c: Counted<T>, codes: seq<seq<byte>>, more: seq<byte>)
    requires Nums(l) > 0 && Fits(l, c.head + [|c.members|]) && AllRead(member, codes, c.members)
    ensures var code := Encode(o, l, c.head + [|c.members|]) + Flatten(codes);
      ParseCounted(o, l, member, code + more) == Some(Parsed(c, |code|))
  {
    var nums := c.head + [|c.members|];
    var fixed, list := Encode(o, l, nums), Flatten(codes);
    FixedPart(o, l, nums, list, more);
    ListRoundTrip(member, c.members, codes, more);
    CountedFrom(o, l, member, c, fixed + list + more, |list|);
  }

  lemma FixedPart(o: ByteOrder, l: Layout, nums: seq<nat>, list: seq<byte>, more: seq<byte>)
    requires Fits(l, nums)
    ensures var s := Encode(o, l, nums) + list + more;
      SizeOfLayout(l) <= |s| && Decode(o, l, s) == nums && s[SizeOfLayout(l)..] == list + more
  {
    Regroup(Encode(o, l, nums), list, more);
    FieldsRoundTrip(o, l, nums, list + more);
  }

  lemma CountedFrom<T>(o: ByteOrder, l: Layout, member: Member<T>, c: Counted<T>, s: seq<byte>, used: nat)
    requires 0 < Nums(l) && SizeOfLayout(l) <= |s| && Decode(o, l, s) == c.head + [|c.members|]
    requires ParseList(member, |c.members|, s[SizeOfLayout(l)..]) == Some(Parsed(c.members, used))
    ensures ParseCounted(o, l, member, s) == Some(Parsed(c, SizeOfLayout(l) + used))
  {
    assert Decode(o, l, s)[..|c.head|] == c.head;
  }

  lemma PrependedTwice<T>(items: seq<T>, offset: nat, item: T, used: nat, rest: Option<Parsed<seq<T>>>)
    ensures Prepended([], 0, rest) == rest
    ensures Prepended(items, offset, Prepended([item], used, rest)) == Prepended(items + [item], offset + used, rest)
  {
    if rest.Some? {
      assert [] + rest.value.value == rest.value.value;
      assert items + ([item] + rest.value.value) == items + [item] + rest.value.value;
    }
  }

  /** The running-offset loop over a list's members. */
  method ParseListOf<T>(member: Member<T>, ct: nat, s: seq<byte>) returns (r: Option<Parsed<seq<T>>>)
    ensures r == ParseList(member, ct, s)
  {
    var items, offset: nat, i := [], 0, 0;
    assert s[0..] == s;
    assert ParseList(member, ct, s).Some? ==> [] + ParseList(member, ct, s).value.value == ParseList(member, ct, s).value.value;
    while i < ct
      invariant i <= ct && offset <= |s|
      invariant ParseList(member, ct, s) == Prepended(items, offset, ParseList(member, ct - i, s[offset..]))
    {
      var next := member(s[offset..]);
      if next.None? || offset + next.value.used > |s| {
        return None;
      }
      var used := next.value.used;
      assert s[offset..][used..] == s[offset + used..];
      PrependedTwice(items, offset, next.value.value, used, ParseList(member, ct - i - 1, s[offset + used..]));
      items, offset, i := items + [next.value.value], offset + used, i + 1;
    }
    assert items + [] == items;
    return Some(Parsed(items, offset));
  }

  method ParseBothOf<A, B>(a: Member<A>, aCt: nat, b: Member<B>, bCt: nat, s: seq<byte>)
    returns (r: Option<Parsed<(seq<A>, seq<B>)>>)
    ensures r == ParseBoth(a, aCt, b, bCt, s)
  {
    var first := ParseListOf(a, aCt, s);
    if first.None? || first.value.used > |s| {
      return None;
    }
    var second := ParseListOf(b, bCt, s[first.value.used..]);
    return if second.None? then None
      else Some(Parsed((first.value.value, second.value.value), first.value.used + second.value.used));
  }
}
