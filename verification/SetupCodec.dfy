/**
 The server's acceptance of a connection: a header, a fixed part, a padded vendor string, and nested
 lists of formats, screens, depths and visual types, each list preceded by its count; see section
 "Connection Setup" of the X protocol encoding.
 */
module SetupCodec {
  import opened Bytes
  import opened Wire
  import opened Records

  /** the last two bytes of `COUNTED` are the numbers of screens and formats */
  const COUNTED := Num(4, Num(4, Num(4, Num(4, Num(2, Num(2, Num(1, Num(1, End))))))))
  const TRAITS := Num(1, Num(1, Num(1, Num(1, Num(1, Num(1, Unused(4, End)))))))
  const FORMAT := Num(1, Num(1, Num(1, Unused(5, End))))
  const SCREEN := Num(4, Num(4, Num(4, Num(4, Num(4, SCREEN_REST)))))
  /** ends in the number of depths */
  const SCREEN_REST := Num(2, Num(2, Num(2, Num(2, Num(2, Num(2, Num(4, Num(1, Num(1, Num(1, Num(1, End)))))))))))
  /** ends in the number of visual types */
  const DEPTH := Num(1, Unused(1, Num(2, Unused(4, End))))
  const VISUAL := Num(4, Num(1, Num(1, Num(2, Num(4, Num(4, Num(4, Unused(4, End))))))))

  const SUCCESS: byte := 1
  const MAJOR_VERSION: nat := 11
  const MINOR_VERSION: nat := 0

  /** The fixed parts of an acceptance. */
  datatype Shapes = Shapes(
    counted: Layout, traits: Layout, format: Layout, screen: Layout, depth: Layout, visual: Layout)

  /** The sizes the source asserts of its packed structures, and where the counts are. */
  predicate Proper(x: Shapes) {
    && SizeOfLayout(x.counted) == 22 && Nums(x.counted) == 8
    && SizeOfLayout(x.traits) == 10
    && SizeOfLayout(x.format) == 8
    && SizeOfLayout(x.screen) == 40 && Nums(x.screen) == 16
    && SizeOfLayout(x.depth) == 8 && Nums(x.depth) == 2
    && SizeOfLayout(x.visual) == 24
  }

  /** Screens and depths end in a count. */
  predicate Countable(x: Shapes) { Nums(x.screen) > 0 && Nums(x.depth) > 0 }

  const X11 := Shapes(COUNTED, TRAITS, FORMAT, SCREEN, DEPTH, VISUAL)

  lemma ScreenIsProper()
    ensures SizeOfLayout(SCREEN) == 40 && Nums(SCREEN) == 16
  {
    assert SizeOfLayout(SCREEN_REST) == 20;
    assert Nums(SCREEN_REST) == 11;
  }

  lemma OthersAreProper()
    ensures SizeOfLayout(TRAITS) == 10 && SizeOfLayout(FORMAT) == 8
    ensures SizeOfLayout(DEPTH) == 8 && Nums(DEPTH) == 2
  {
  }

  lemma CountedIsProper()
    ensures SizeOfLayout(COUNTED) == 22 && Nums(COUNTED) == 8
  {
  }

  lemma VisualIsProper()
    ensures SizeOfLayout(VISUAL) == 24
  {
  }

  lemma X11IsProper()
    ensures Proper(X11)
  {
    ScreenIsProper();
    OthersAreProper();
    CountedIsProper();
    VisualIsProper();
  }

  type Depth = Counted<seq<nat>>
  type Screen = Counted<Depth>

  /** `head` and `traits` are the numeric fields around the numbers of screens and formats. */
  datatype Body<+F, +S> = Body(head: seq<nat>, traits: seq<nat>, vendor: seq<byte>, formats: seq<F>, screens: seq<S>)

  type Acceptance = Body<seq<nat>, Screen>

  function ScreenMember(x: Shapes, o: ByteOrder): Member<Screen>
    requires Countable(x)
  {
    CountedMember(o, x.screen, CountedMember(o, x.depth, RecordMember(o, x.visual)))
  }

  /** The numbers of the two parts of fixed size. */
  function ParseFixed(x: Shapes, o: ByteOrder, s: seq<byte>): Option<Parsed<(seq<nat>, seq<nat>)>>
    requires Proper(x)
  {
    if |s| < 32 then None else Some(Parsed((Decode(o, x.counted, s), Decode(o, x.traits, s[22..])), 32))
  }

  function FixedMember(x: Shapes, o: ByteOrder): Member<(seq<nat>, seq<nat>)>
    requires Proper(x)
  {
    s => ParseFixed(x, o, s)
  }

  /** The fixed part, the padded vendor string, the formats and the screens. */
  function ParseParts<F, S>(fixed: Member<(seq<nat>, seq<nat>)>, format: Member<F>, screen: Member<S>, s: seq<byte>)
    : Option<Parsed<Body<F, S>>>
  {
    var f := fixed(s);
    if f.None? || f.value.used > |s| || |f.value.value.0| != 8 then None
    else ParseSuffixes(f.value.value.0, f.value.value.1, f.value.used, format, screen, s[f.value.used..])
  }

  function ParseSuffixes<F, S>(counts: seq<nat>, traits: seq<nat>, used: nat, format: Member<F>, screen: Member<S>, s: seq<byte>)
    : Option<Parsed<Body<F, S>>>
    requires |counts| == 8
  {
    var vendorSz := counts[4];
    if |s| < Pad(vendorSz) then None
    else
      var lists := ParseBoth(format, counts[7], screen, counts[6], s[Pad(vendorSz)..]);
      if lists.None? then None
      else Some(Parsed(Body(counts[..6], traits, s[..vendorSz], lists.value.value.0, lists.value.value.1),
                       used + Pad(vendorSz) + lists.value.used))
  }

  /** Everything after the 8-byte header. */
  function ParseBody(x: Shapes, o: ByteOrder, s: seq<byte>): Option<Parsed<Acceptance>>
    requires Proper(x)
  {
    ParseParts(FixedMember(x, o), RecordMember(o, x.format), ScreenMember(x, o), s)
  }

  predicate Accepts(x: Shapes, o: ByteOrder, m: seq<byte>)
    requires Proper(x)
  {
    && |m| >= 8
    && m[0] == SUCCESS && U16(o, m, 2) == MAJOR_VERSION && U16(o, m, 4) == MINOR_VERSION
    && var body := ParseBody(x, o, m[8..]);
      body.Some? && U16(o, m, 6) == Units(body.value.used) && 8 + body.value.used == |m|
  }

  /** Whether the server's answer to a connection attempt opens it: a success in the one supported
      protocol version, whose lists take exactly the announced number of aligned units. Any other
      answer ends the process. */
  predicate Opens(o: ByteOrder, m: seq<byte>) {
    X11IsProper();
    Accepts(X11, o, m)
  }

  /** Parsing an acceptance piece by piece, with a count of the bytes taken so far. */
  method LogSuffixes<F, S>(counts: seq<nat>, ghost traits: seq<nat>, parsed: nat, format: Member<F>, screen: Member<S>, s: seq<byte>)
    returns (bytesParsed: Option<nat>)
    requires |counts| == 8
    ensures var r := ParseSuffixes(counts, traits, parsed, format, screen, s);
      bytesParsed == if r.None? then None else Some(r.value.used)
  {
    var vendor := Pad(counts[4]);
    if vendor > |s| {
      return None;
    }
    var lists := ParseBothOf(format, counts[7], screen, counts[6], s[vendor..]);
    return if lists.None? then None else Some(parsed + vendor + lists.value.used);
  }

  method LogParts<F, S>(fixed: Member<(seq<nat>, seq<nat>)>, format: Member<F>, screen: Member<S>, s: seq<byte>)
    returns (bytesParsed: Option<nat>)
    ensures var r := ParseParts(fixed, format, screen, s);
      bytesParsed == if r.None? then None else Some(r.value.used)
  {
    var f := fixed(s);
    if f.None? || f.value.used > |s| || |f.value.value.0| != 8 {
      return None;
    }
    bytesParsed := LogSuffixes(f.value.value.0, f.value.value.1, f.value.used, format, screen, s[f.value.used..]);
  }

  method LogAcceptance(x: Shapes, o: ByteOrder, m: seq<byte>) returns (opens: bool)
    requires Proper(x)
    ensures opens == Accepts(x, o, m)
  {
    if |m| < 8 || m[0] != SUCCESS || U16(o, m, 2) != MAJOR_VERSION || U16(o, m, 4) != MINOR_VERSION {
      return false;
    }
    var bytesParsed := LogParts(FixedMember(x, o), RecordMember(o, x.format), ScreenMember(x, o), m[8..]);
    return bytesParsed.Some? && U16(o, m, 6) == Units(bytesParsed.value) && 8 + bytesParsed.value == |m|;
  }

  method LogInitResponse(o: ByteOrder, m: seq<byte>) returns (opens: bool)
    ensures opens == Opens(o, m)
  {
    X11IsProper();
    opens := LogAcceptance(X11, o, m);
  }

  // ---- encodings ----

  predicate DepthFits(x: Shapes, d: Depth) {
    Fits(x.depth, d.head + [|d.members|]) && RecordsFit(x.visual, d.members)
  }

  predicate ScreenFits(x: Shapes, s: Screen) {
    Fits(x.screen, s.head + [|s.members|]) && forall d <- s.members :: DepthFits(x, d)
  }

  predicate ScreensFit(x: Shapes, ss: seq<Screen>) { forall s <- ss :: ScreenFits(x, s) }

  predicate AcceptanceFits(x: Shapes, a: Acceptance) {
    && |a.head| == 6 && a.head[4] == |a.vendor|
    && Fits(x.counted, a.head + [|a.screens|, |a.formats|]) && Fits(x.traits, a.traits)
    && RecordsFit(x.format, a.formats)
    && ScreensFit(x, a.screens)
  }

  function EncodeDepth(x: Shapes, o: ByteOrder, d: Depth): seq<byte>
    requires DepthFits(x, d)
  {
    Encode(o, x.depth, d.head + [|d.members|]) + Flatten(EncodeRecords(o, x.visual, d.members))
  }

  function EncodeDepths(x: Shapes, o: ByteOrder, ds: seq<Depth>): (codes: seq<seq<byte>>)
    requires forall d <- ds :: DepthFits(x, d)
    ensures |codes| == |ds| && forall i :: 0 <= i < |ds| ==> codes[i] == EncodeDepth(x, o, ds[i])
  {
    seq(|ds|, i requires 0 <= i < |ds| => assert ds[i] in ds; EncodeDepth(x, o, ds[i]))
  }

  function EncodeScreen(x: Shapes, o: ByteOrder, s: Screen): seq<byte>
    requires ScreenFits(x, s)
  {
    Encode(o, x.screen, s.head + [|s.members|]) + Flatten(EncodeDepths(x, o, s.members))
  }

  function EncodeScreens(x: Shapes, o: ByteOrder, ss: seq<Screen>): (codes: seq<seq<byte>>)
    requires ScreensFit(x, ss)
    ensures |codes| == |ss| && forall i :: 0 <= i < |ss| ==> codes[i] == EncodeScreen(x, o, ss[i])
  {
    seq(|ss|, i requires 0 <= i < |ss| => assert ss[i] in ss; EncodeScreen(x, o, ss[i]))
  }

  function EncodeLists(x: Shapes, o: ByteOrder, formats: seq<seq<nat>>, screens: seq<Screen>): seq<byte>
    requires RecordsFit(x.format, formats) && ScreensFit(x, screens)
  {
    Flatten(EncodeRecords(o, x.format, formats)) + Flatten(EncodeScreens(x, o, screens))
  }

  function Padded(s: seq<byte>): (r: seq<byte>)
    ensures |r| == Pad(|s|) && r[..|s|] == s
  {
    s + seq(Pad(|s|) - |s|, _ => 0)
  }

  function EncodeBody(x: Shapes, o: ByteOrder, a: Acceptance): seq<byte>
    requires AcceptanceFits(x, a)
  {
    Encode(o, x.counted, a.head + [|a.screens|, |a.formats|]) + Encode(o, x.traits, a.traits)
    + (Padded(a.vendor) + EncodeLists(x, o, a.formats, a.screens))
  }

  // ---- round trips ----

  lemma DepthReads(x: Shapes, o: ByteOrder, d: Depth)
    requires Countable(x) && DepthFits(x, d)
    ensures Reads(CountedMember(o, x.depth, RecordMember(o, x.visual)), EncodeDepth(x, o, d), d)
  {
    RecordsRead(o, x.visual, d.members);
    CountedReads(o, x.depth, RecordMember(o, x.visual), d, EncodeRecords(o, x.visual, d.members));
  }

  lemma ScreenReads(x: Shapes, o: ByteOrder, s: Screen)
    requires Countable(x) && ScreenFits(x, s)
    ensures Reads(ScreenMember(x, o), EncodeScreen(x, o, s), s)
  {
    var member, codes := CountedMember(o, x.depth, RecordMember(o, x.visual)), EncodeDepths(x, o, s.members);
    forall i | 0 <= i < |s.members| ensures Reads(member, codes[i], s.members[i]) {
      DepthReads(x, o, s.members[i]);
    }
    CountedReads(o, x.screen, member, s, codes);
  }

  lemma ScreensRead(x: Shapes, o: ByteOrder, ss: seq<Screen>)
    requires Countable(x) && ScreensFit(x, ss)
    ensures AllRead(ScreenMember(x, o), EncodeScreens(x, o, ss), ss)
  {
    forall i | 0 <= i < |ss| ensures Reads(ScreenMember(x, o), EncodeScreens(x, o, ss)[i], ss[i]) {
      ScreenReads(x, o, ss[i]);
    }
  }

  lemma FixedReads(x: Shapes, o: ByteOrder, counts: seq<nat>, traits: seq<nat>)
    requires Proper(x) && Fits(x.counted, counts) && Fits(x.traits, traits)
    ensures Reads(FixedMember(x, o), Encode(o, x.counted, counts) + Encode(o, x.traits, traits), (counts, traits))
  {
    var first, second := Encode(o, x.counted, counts), Encode(o, x.traits, traits);
    forall more ensures ParseFixed(x, o, first + second + more) == Some(Parsed((counts, traits), |first + second|)) {
      Regroup(first, second, more);
      FieldsRoundTrip(o, x.counted, counts, second + more);
      FieldsRoundTrip(o, x.traits, traits, more);
    }
  }

  lemma FrontOf(a: seq<byte>, b: seq<byte>, n: nat)
    requires n <= |a|
    ensures (a + b)[..n] == a[..n]
  {
  }

  lemma SuffixesRead<F(!new), S(!new)>(a: Body<F, S>, counts: seq<nat>, used: nat, format: Member<F>, formats: seq<seq<byte>>,
                                       screen: Member<S>, screens: seq<seq<byte>>, more: seq<byte>)
    requires counts == a.head + [|a.screens|, |a.formats|] && |a.head| == 6 && a.head[4] == |a.vendor|
    requires AllRead(format, formats, a.formats) && AllRead(screen, screens, a.screens)
    ensures var code := Padded(a.vendor) + (Flatten(formats) + Flatten(screens));
      ParseSuffixes(counts, a.traits, used, format, screen, code + more) == Some(Parsed(a, used + |code|))
  {
    var lists := Flatten(formats) + Flatten(screens);
    BothRoundTrip(format, a.formats, formats, screen, a.screens, screens, more);
    Regroup(Padded(a.vendor), lists, more);
    FrontOf(Padded(a.vendor), lists + more, |a.vendor|);
    HeadOf(a.head, |a.screens|, |a.formats|);
    SuffixesFrom(a, counts, used, format, screen, Padded(a.vendor) + lists + more, |lists|);
  }

  lemma HeadOf(head: seq<nat>, screens: nat, formats: nat)
    requires |head| == 6
    ensures var counts := head + [screens, formats];
      counts[..6] == head && counts[4] == head[4] && counts[6] == screens && counts[7] == formats
  {
  }

  lemma SuffixesFrom<F, S>(a: Body<F, S>, counts: seq<nat>, used: nat, format: Member<F>, screen: Member<S>, s: seq<byte>, lists: nat)
    requires |counts| == 8 && counts[..6] == a.head && counts[4] == |a.vendor| && Pad(|a.vendor|) <= |s| && s[..|a.vendor|] == a.vendor
    requires ParseBoth(format, counts[7], screen, counts[6], s[Pad(|a.vendor|)..]) == Some(Parsed((a.formats, a.screens), lists))
    ensures ParseSuffixes(counts, a.traits, used, format, screen, s) == Some(Parsed(a, used + Pad(|a.vendor|) + lists))
  {
    var n := counts[4];
    var both := ParseBoth(format, counts[7], screen, counts[6], s[Pad(n)..]);
    assert both.value.value.0 == a.formats && both.value.value.1 == a.screens;
    assert a == Body(counts[..6], a.traits, s[..n], a.formats, a.screens);
  }

  /** A fixed part and two lists that are read back are read back together. */
  lemma PartsRead<F(!new), S(!new)>(
    a: Body<F, S>, counts: seq<nat>, fixed: Member<(seq<nat>, seq<nat>)>, fixedCode: seq<byte>,
    format: Member<F>, formats: seq<seq<byte>>, screen: Member<S>, screens: seq<seq<byte>>, more: seq<byte>, rest: seq<byte>)
    requires counts == a.head + [|a.screens|, |a.formats|] && |a.head| == 6 && a.head[4] == |a.vendor|
    requires Reads(fixed, fixedCode, (counts, a.traits))
    requires AllRead(format, formats, a.formats) && AllRead(screen, screens, a.screens)
    requires rest == Padded(a.vendor) + (Flatten(formats) + Flatten(screens))
    ensures ParseParts(fixed, format, screen, fixedCode + rest + more) == Some(Parsed(a, |fixedCode + rest|))
  {
    SuffixesRead(a, counts, |fixedCode|, format, formats, screen, screens, more);
    PartsFrom(a, fixed, fixedCode, counts, format, screen, rest, more);
  }

  lemma PartsFrom<F(!new), S(!new)>(a: Body<F, S>, fixed: Member<(seq<nat>, seq<nat>)>, fixedCode: seq<byte>, counts: seq<nat>,
                                    format: Member<F>, screen: Member<S>, rest: seq<byte>, more: seq<byte>)
    requires Reads(fixed, fixedCode, (counts, a.traits)) && |counts| == 8
    requires ParseSuffixes(counts, a.traits, |fixedCode|, format, screen, rest + more) == Some(Parsed(a, |fixedCode| + |rest|))
    ensures ParseParts(fixed, format, screen, fixedCode + rest + more) == Some(Parsed(a, |fixedCode + rest|))
  {
    Regroup(fixedCode, rest, more);
    assert fixed(fixedCode + (rest + more)) == Some(Parsed((counts, a.traits), |fixedCode|));
  }

  /** Whatever tree of formats, screens, depths and visual types a server announces, in either byte
      order, parsing gives back that tree and takes exactly the bytes that encode it. */
  lemma BodyRoundTrip(x: Shapes, o: ByteOrder, a: Acceptance, more: seq<byte>)
    requires Proper(x) && AcceptanceFits(x, a)
    ensures ParseBody(x, o, EncodeBody(x, o, a) + more) == Some(Parsed(a, |EncodeBody(x, o, a)|))
  {
    var counts := a.head + [|a.screens|, |a.formats|];
    FixedReads(x, o, counts, a.traits);
    RecordsRead(o, x.format, a.formats);
    ScreensRead(x, o, a.screens);
    var fixed := Encode(o, x.counted, counts) + Encode(o, x.traits, a.traits);
    var formats, screens := EncodeRecords(o, x.format, a.formats), EncodeScreens(x, o, a.screens);
    PartsRead(a, counts, FixedMember(x, o), fixed, RecordMember(o, x.format), formats, ScreenMember(x, o), screens, more,
              Padded(a.vendor) + EncodeLists(x, o, a.formats, a.screens));
  }

  // ---- the announced length ----

  predicate Whole(s: seq<byte>) { |s| % ALIGN == 0 }

  lemma {:induction false} ListIsWhole(fixed: seq<byte>, codes: seq<seq<byte>>)
    requires Whole(fixed) && forall i :: 0 <= i < |codes| ==> Whole(codes[i])
    ensures Whole(fixed + Flatten(codes))
    decreases |codes|
  {
    if codes != [] {
      ListIsWhole(fixed + codes[0], codes[1..]);
      assert fixed + codes[0] + Flatten(codes[1..]) == fixed + Flatten(codes);
    }
  }

  lemma RecordsAreWhole(o: ByteOrder, l: Layout, rs: seq<seq<nat>>)
    requires RecordsFit(l, rs) && SizeOfLayout(l) % ALIGN == 0
    ensures forall i :: 0 <= i < |rs| ==> Whole(EncodeRecords(o, l, rs)[i])
  {
  }

  lemma DepthIsWhole(x: Shapes, o: ByteOrder, d: Depth)
    requires Proper(x) && DepthFits(x, d)
    ensures Whole(EncodeDepth(x, o, d))
  {
    RecordsAreWhole(o, x.visual, d.members);
    ListIsWhole(Encode(o, x.depth, d.head + [|d.members|]), EncodeRecords(o, x.visual, d.members));
  }

  lemma DepthsAreWhole(x: Shapes, o: ByteOrder, ds: seq<Depth>)
    requires Proper(x) && forall d <- ds :: DepthFits(x, d)
    ensures forall i :: 0 <= i < |ds| ==> Whole(EncodeDepths(x, o, ds)[i])
  {
    forall i | 0 <= i < |ds| ensures Whole(EncodeDepths(x, o, ds)[i]) {
      DepthIsWhole(x, o, ds[i]);
    }
  }

  lemma ScreenIsWhole(x: Shapes, o: ByteOrder, s: Screen)
    requires Proper(x) && ScreenFits(x, s)
    ensures Whole(EncodeScreen(x, o, s))
  {
    DepthsAreWhole(x, o, s.members);
    ListIsWhole(Encode(o, x.screen, s.head + [|s.members|]), EncodeDepths(x, o, s.members));
  }

  lemma ScreensAreWhole(x: Shapes, o: ByteOrder, ss: seq<Screen>)
    requires Proper(x) && ScreensFit(x, ss)
    ensures forall i :: 0 <= i < |ss| ==> Whole(EncodeScreens(x, o, ss)[i])
  {
    forall i | 0 <= i < |ss| ensures Whole(EncodeScreens(x, o, ss)[i]) {
      ScreenIsWhole(x, o, ss[i]);
    }
  }

  lemma ListsAreWhole(x: Shapes, o: ByteOrder, formats: seq<seq<nat>>, screens: seq<Screen>)
    requires Proper(x) && RecordsFit(x.format, formats) && ScreensFit(x, screens)
    ensures Whole(EncodeLists(x, o, formats, screens))
  {
    var first := Flatten(EncodeRecords(o, x.format, formats));
    RecordsAreWhole(o, x.format, formats);
    ListIsWhole([], EncodeRecords(o, x.format, formats));
    assert [] + first == first;
    ScreensAreWhole(x, o, screens);
    ListIsWhole(first, EncodeScreens(x, o, screens));
  }

  lemma WholeTogether(a: seq<byte>, b: seq<byte>)
    requires Whole(a) && Whole(b)
    ensures Whole(a + b)
  {
  }

  /** Every part of an acceptance takes whole aligned units. */
  lemma BodyIsWhole(x: Shapes, o: ByteOrder, a: Acceptance)
    requires Proper(x) && AcceptanceFits(x, a)
    ensures Whole(EncodeBody(x, o, a))
  {
    var fixed := Encode(o, x.counted, a.head + [|a.screens|, |a.formats|]) + Encode(o, x.traits, a.traits);
    var lists := EncodeLists(x, o, a.formats, a.screens);
    assert |fixed| == 32;
    ListsAreWhole(x, o, a.formats, a.screens);
    WholeTogether(Padded(a.vendor), lists);
    WholeTogether(fixed, Padded(a.vendor) + lists);
  }

  /** The bytes the framing of a connection attempt's answer waits for. */
  function AnnouncedSize(o: ByteOrder, m: seq<byte>): nat
    requires |m| >= 8
  {
    8 + ALIGN * U16(o, m, 6)
  }

  function EncodeHeader(o: ByteOrder, units: nat): (s: seq<byte>)
    requires units < 0x1_0000
    ensures |s| == 8 && s[0] == SUCCESS && U16(o, s, 2) == MAJOR_VERSION && U16(o, s, 4) == MINOR_VERSION
    ensures U16(o, s, 6) == units
  {
    var version, length := Enc16(o, MAJOR_VERSION) + Enc16(o, MINOR_VERSION), Enc16(o, units);
    assert U16(o, version, 0) == U16(o, Enc16(o, MAJOR_VERSION), 0) && U16(o, version, 2) == U16(o, Enc16(o, MINOR_VERSION), 0);
    assert U16(o, length, 0) == units;
    [SUCCESS, 0] + version + length
  }

  function EncodeAcceptance(x: Shapes, o: ByteOrder, a: Acceptance): seq<byte>
    requires Proper(x) && AcceptanceFits(x, a) && Units(|EncodeBody(x, o, a)|) < 0x1_0000
  {
    EncodeHeader(o, Units(|EncodeBody(x, o, a)|)) + EncodeBody(x, o, a)
  }

  /** An acceptance opens the connection, and the framing waits for exactly its length: the number of
      units in its header, the bytes its nested lists take and its length all agree. */
  lemma AcceptanceAccepted(x: Shapes, o: ByteOrder, a: Acceptance)
    requires Proper(x) && AcceptanceFits(x, a) && Units(|EncodeBody(x, o, a)|) < 0x1_0000
    ensures var m := EncodeAcceptance(x, o, a); Accepts(x, o, m) && AnnouncedSize(o, m) == |m|
  {
    var body := EncodeBody(x, o, a);
    BodyRoundTrip(x, o, a, []);
    BodyIsWhole(x, o, a);
    assert body + [] == body;
    AcceptedFrom(x, o, a, EncodeHeader(o, Units(|body|)), body);
  }

  lemma HeaderOf(o: ByteOrder, header: seq<byte>, body: seq<byte>)
    requires |header| == 8
    ensures var m := header + body;
      && m[8..] == body && m[0] == header[0] && U16(o, m, 2) == U16(o, header, 2)
      && U16(o, m, 4) == U16(o, header, 4) && U16(o, m, 6) == U16(o, header, 6)
  {
    assert (header + body)[..8] == header;
  }

  lemma UnitsOfWhole(s: seq<byte>)
    requires Whole(s)
    ensures ALIGN * Units(|s|) == |s|
  {
  }

  lemma AcceptedFrom(x: Shapes, o: ByteOrder, a: Acceptance, header: seq<byte>, body: seq<byte>)
    requires Proper(x) && ParseBody(x, o, body) == Some(Parsed(a, |body|)) && Whole(body)
    requires |header| == 8 && header[0] == SUCCESS && U16(o, header, 6) == Units(|body|)
    requires U16(o, header, 2) == MAJOR_VERSION && U16(o, header, 4) == MINOR_VERSION
    ensures Accepts(x, o, header + body) && AnnouncedSize(o, header + body) == |header + body|
  {
    UnitsOfWhole(body);
    HeaderOf(o, header, body);
  }
}
