/**
 Where the fields of an acceptance are, byte by byte, and which header it needs to open a connection.
 */
module SetupPlaces {
  import opened Bytes
  import opened Wire
  import opened Records
  import opened SetupCodec

  // ---- the header ----

  function EncodeInitResponse(o: ByteOrder, success: byte, unused: byte, major: nat, minor: nat, units: nat): (s: seq<byte>)
    requires major < 0x1_0000 && minor < 0x1_0000 && units < 0x1_0000
    ensures |s| == 8
  {
    [success, unused] + Enc16(o, major) + Enc16(o, minor) + Enc16(o, units)
  }

  lemma HeaderFields(o: ByteOrder, success: byte, unused: byte, major: nat, minor: nat, units: nat)
    requires major < 0x1_0000 && minor < 0x1_0000 && units < 0x1_0000
    ensures var s := EncodeInitResponse(o, success, unused, major, minor, units);
      s[0] == success && U16(o, s, 2) == major && U16(o, s, 4) == minor && U16(o, s, 6) == units
  {
    var s := EncodeInitResponse(o, success, unused, major, minor, units);
    assert s[2..4] == Enc16(o, major) && s[4..6] == Enc16(o, minor) && s[6..8] == Enc16(o, units);
    assert U16(o, s, 2) == U16(o, s[2..4], 0) && U16(o, s, 4) == U16(o, s[4..6], 0) && U16(o, s, 6) == U16(o, s[6..8], 0);
  }

  lemma AcceptsBehind(x: Shapes, o: ByteOrder, header: seq<byte>, body: seq<byte>, a: Acceptance)
    requires Proper(x) && |header| == 8 && ParseBody(x, o, body) == Some(Parsed(a, |body|)) && Whole(body)
    ensures Accepts(x, o, header + body)
      <==> header[0] == 1 && U16(o, header, 2) == 11 && U16(o, header, 4) == 0 && 4 * U16(o, header, 6) == |body|
  {
    UnitsOfWhole(body);
    HeaderOf(o, header, body);
  }

  lemma AcceptsExactly(x: Shapes, o: ByteOrder, a: Acceptance, success: byte, unused: byte, major: nat, minor: nat, units: nat)
    requires Proper(x) && AcceptanceFits(x, a) && major < 0x1_0000 && minor < 0x1_0000 && units < 0x1_0000
    ensures var body := EncodeBody(x, o, a);
      Accepts(x, o, EncodeInitResponse(o, success, unused, major, minor, units) + body)
      == (success == 1 && major == 11 && minor == 0 && 4 * units == |body|)
  {
    var body := EncodeBody(x, o, a);
    BodyRoundTrip(x, o, a, []);
    BodyIsWhole(x, o, a);
    assert body + [] == body;
    HeaderFields(o, success, unused, major, minor, units);
    AcceptsBehind(x, o, EncodeInitResponse(o, success, unused, major, minor, units), body, a);
  }

  /** `x` are the layouts of the answers that open a connection. */
  ghost predicate OpensBy(x: Shapes) { Proper(x) && forall o, m :: Opens(o, m) == Accepts(x, o, m) }

  lemma X11Opens()
    ensures OpensBy(X11)
  {
    X11IsProper();
  }

  /** The encoding of whatever tree a server announces opens the connection behind exactly one kind of header: a
      success in version 11.0 that announces as many units. */
  lemma OpensExactly(x: Shapes, o: ByteOrder, a: Acceptance, success: byte, unused: byte, major: nat, minor: nat, units: nat)
    requires OpensBy(x) && AcceptanceFits(x, a) && major < 0x1_0000 && minor < 0x1_0000 && units < 0x1_0000
    ensures Opens(o, EncodeInitResponse(o, success, unused, major, minor, units) + EncodeBody(x, o, a))
      == (success == 1 && major == 11 && minor == 0 && 4 * units == |EncodeBody(x, o, a)|)
  {
    AcceptsExactly(x, o, a, success, unused, major, minor, units);
  }

  // ---- fixed parts ----

  function FieldAt(o: ByteOrder, w: nat, s: seq<byte>, at: nat): nat
    requires Limit(w) > 0 && at + w <= |s|
  {
    if w == 1 then s[at] else if w == 2 then U16(o, s, at) else U32(o, s, at)
  }

  /** The fields of a layout that starts at `at`, each read where it is. */
  function FieldsAt(o: ByteOrder, l: Layout, s: seq<byte>, at: nat): seq<nat>
    requires Regular(l) && at + SizeOfLayout(l) <= |s|
  {
    match l
    case End => []
    case Num(w, rest) => [FieldAt(o, w, s, at)] + FieldsAt(o, rest, s, at + w)
    case Unused(w, rest) => FieldsAt(o, rest, s, at + w)
  }

  lemma FieldIsThere(o: ByteOrder, w: nat, s: seq<byte>, at: nat)
    requires Limit(w) > 0 && at + w <= |s|
    ensures DecodeNum(o, w, s[at..]) == FieldAt(o, w, s, at)
  {
    var t := s[at..];
    assert forall j :: 0 <= j < w ==> t[j] == s[at + j];
  }

  lemma {:induction false} DecodedAt(o: ByteOrder, l: Layout, s: seq<byte>, at: nat)
    requires Regular(l) && at + SizeOfLayout(l) <= |s|
    ensures Decode(o, l, s[at..]) == FieldsAt(o, l, s, at)
  {
    if l != End {
      assert s[at..][l.width..] == s[at + l.width..];
      DecodedAt(o, l.rest, s, at + l.width);
      if l.Num? {
        FieldIsThere(o, l.width, s, at);
      }
    }
  }

  lemma EncodedAt(o: ByteOrder, l: Layout, vs: seq<nat>, more: seq<byte>)
    requires Fits(l, vs) && Regular(l)
    ensures FieldsAt(o, l, Encode(o, l, vs) + more, 0) == vs
  {
    var s := Encode(o, l, vs) + more;
    FieldsRoundTrip(o, l, vs, more);
    DecodedAt(o, l, s, 0);
    assert s[0..] == s;
  }

  lemma {:induction false} OneField(o: ByteOrder, w: nat, rest: Layout, s: seq<byte>, at: nat)
    requires Limit(w) > 0 && Regular(rest) && at + w + SizeOfLayout(rest) <= |s|
    ensures Regular(Num(w, rest)) && SizeOfLayout(Num(w, rest)) == w + SizeOfLayout(rest)
    ensures FieldsAt(o, Num(w, rest), s, at) == [FieldAt(o, w, s, at)] + FieldsAt(o, rest, s, at + w)
  {
  }

  lemma NoField(o: ByteOrder, l: Layout, s: seq<byte>, at: nat)
    requires l.Unused? && Regular(l) && at + SizeOfLayout(l) <= |s|
    ensures Regular(l.rest) && FieldsAt(o, l, s, at) == FieldsAt(o, l.rest, s, at + l.width)
  {
  }

  lemma {:induction false} TwoFields(o: ByteOrder, w: nat, rest: Layout, s: seq<byte>, at: nat)
    requires Limit(w) > 0 && Regular(rest) && at + 2 * w + SizeOfLayout(rest) <= |s|
    ensures var l := Num(w, Num(w, rest)); Regular(l) && SizeOfLayout(l) == 2 * w + SizeOfLayout(rest)
    ensures FieldsAt(o, Num(w, Num(w, rest)), s, at) == [FieldAt(o, w, s, at), FieldAt(o, w, s, at + w)] + FieldsAt(o, rest, s, at + 2 * w)
  {
    OneField(o, w, rest, s, at + w);
    OneField(o, w, Num(w, rest), s, at);
  }

  lemma CountedFields(o: ByteOrder, s: seq<byte>)
    requires |s| >= 22
    ensures Regular(COUNTED) && SizeOfLayout(COUNTED) == 22
    ensures FieldsAt(o, COUNTED, s, 0)
      == [U32(o, s, 0), U32(o, s, 4), U32(o, s, 8), U32(o, s, 12), U16(o, s, 16), U16(o, s, 18), s[20], s[21]]
  {
    OneField(o, 1, End, s, 21);
    OneField(o, 1, Num(1, End), s, 20);
    OneField(o, 2, Num(1, Num(1, End)), s, 18);
    OneField(o, 2, Num(2, Num(1, Num(1, End))), s, 16);
    TwoFields(o, 4, Num(2, Num(2, Num(1, Num(1, End)))), s, 8);
    TwoFields(o, 4, Num(4, Num(4, Num(2, Num(2, Num(1, Num(1, End)))))), s, 0);
  }

  lemma TraitsFields(o: ByteOrder, s: seq<byte>)
    requires |s| >= 10
    ensures Regular(TRAITS) && SizeOfLayout(TRAITS) == 10
    ensures FieldsAt(o, TRAITS, s, 0) == [s[0], s[1], s[2], s[3], s[4], s[5]]
  {
    NoField(o, Unused(4, End), s, 6);
    OneField(o, 1, Unused(4, End), s, 5);
    OneField(o, 1, Num(1, Unused(4, End)), s, 4);
    TwoFields(o, 1, Num(1, Num(1, Unused(4, End))), s, 2);
    TwoFields(o, 1, Num(1, Num(1, Num(1, Num(1, Unused(4, End))))), s, 0);
  }

  lemma FormatFields(o: ByteOrder, s: seq<byte>)
    requires |s| >= 8
    ensures Regular(FORMAT) && SizeOfLayout(FORMAT) == 8
    ensures FieldsAt(o, FORMAT, s, 0) == [s[0], s[1], s[2]]
  {
    NoField(o, Unused(5, End), s, 3);
    OneField(o, 1, Unused(5, End), s, 2);
    OneField(o, 1, Num(1, Unused(5, End)), s, 1);
    OneField(o, 1, Num(1, Num(1, Unused(5, End))), s, 0);
  }

  lemma ScreenRestFields(o: ByteOrder, s: seq<byte>)
    requires |s| >= 40
    ensures Regular(SCREEN_REST) && SizeOfLayout(SCREEN_REST) == 20
    ensures FieldsAt(o, SCREEN_REST, s, 20)
      == [U16(o, s, 20), U16(o, s, 22), U16(o, s, 24), U16(o, s, 26), U16(o, s, 28), U16(o, s, 30), U32(o, s, 32),
          s[36], s[37], s[38], s[39]]
  {
    var ones := Num(1, Num(1, Num(1, Num(1, End))));
    TwoFields(o, 1, End, s, 38);
    TwoFields(o, 1, Num(1, Num(1, End)), s, 36);
    OneField(o, 4, ones, s, 32);
    OneField(o, 2, Num(4, ones), s, 30);
    OneField(o, 2, Num(2, Num(4, ones)), s, 28);
    TwoFields(o, 2, Num(2, Num(2, Num(4, ones))), s, 24);
    TwoFields(o, 2, Num(2, Num(2, Num(2, Num(2, Num(4, ones))))), s, 20);
  }

  lemma ScreenFields(o: ByteOrder, s: seq<byte>)
    requires |s| >= 40
    ensures Regular(SCREEN) && SizeOfLayout(SCREEN) == 40
    ensures FieldsAt(o, SCREEN, s, 0)
      == [U32(o, s, 0), U32(o, s, 4), U32(o, s, 8), U32(o, s, 12), U32(o, s, 16)]
         + [U16(o, s, 20), U16(o, s, 22), U16(o, s, 24), U16(o, s, 26), U16(o, s, 28), U16(o, s, 30), U32(o, s, 32),
            s[36], s[37], s[38], s[39]]
  {
    ScreenRestFields(o, s);
    OneField(o, 4, SCREEN_REST, s, 16);
    TwoFields(o, 4, Num(4, SCREEN_REST), s, 8);
    TwoFields(o, 4, Num(4, Num(4, Num(4, SCREEN_REST))), s, 0);
  }

  lemma DepthFields(o: ByteOrder, s: seq<byte>)
    requires |s| >= 8
    ensures Regular(DEPTH) && SizeOfLayout(DEPTH) == 8
    ensures FieldsAt(o, DEPTH, s, 0) == [s[0], U16(o, s, 2)]
  {
    NoField(o, Unused(4, End), s, 4);
    OneField(o, 2, Unused(4, End), s, 2);
    NoField(o, Unused(1, Num(2, Unused(4, End))), s, 1);
    OneField(o, 1, Unused(1, Num(2, Unused(4, End))), s, 0);
  }

  lemma VisualFields(o: ByteOrder, s: seq<byte>)
    requires |s| >= 24
    ensures Regular(VISUAL) && SizeOfLayout(VISUAL) == 24
    ensures FieldsAt(o, VISUAL, s, 0) == [U32(o, s, 0), s[4], s[5], U16(o, s, 6), U32(o, s, 8), U32(o, s, 12), U32(o, s, 16)]
  {
    NoField(o, Unused(4, End), s, 20);
    OneField(o, 4, Unused(4, End), s, 16);
    OneField(o, 4, Num(4, Unused(4, End)), s, 12);
    OneField(o, 4, Num(4, Num(4, Unused(4, End))), s, 8);
    OneField(o, 2, Num(4, Num(4, Num(4, Unused(4, End)))), s, 6);
    OneField(o, 1, Num(2, Num(4, Num(4, Num(4, Unused(4, End))))), s, 5);
    OneField(o, 1, Num(1, Num(2, Num(4, Num(4, Num(4, Unused(4, End)))))), s, 4);
    OneField(o, 4, Num(1, Num(1, Num(2, Num(4, Num(4, Num(4, Unused(4, End))))))), s, 0);
  }

  // ---- the places in the protocol ----

  ghost predicate CountedIs(l: Layout) {
    Regular(l) && SizeOfLayout(l) == 22 && forall o, s: seq<byte> {:trigger FieldsAt(o, l, s, 0)} :: |s| >= 22 ==>
      FieldsAt(o, l, s, 0) == [U32(o, s, 0), U32(o, s, 4), U32(o, s, 8), U32(o, s, 12), U16(o, s, 16), U16(o, s, 18), s[20], s[21]]
  }

  ghost predicate TraitsIs(l: Layout) {
    Regular(l) && SizeOfLayout(l) == 10 && forall o, s: seq<byte> {:trigger FieldsAt(o, l, s, 0)} :: |s| >= 10 ==>
      FieldsAt(o, l, s, 0) == [s[0], s[1], s[2], s[3], s[4], s[5]]
  }

  ghost predicate FormatIs(l: Layout) {
    Regular(l) && SizeOfLayout(l) == 8 && forall o, s: seq<byte> {:trigger FieldsAt(o, l, s, 0)} :: |s| >= 8 ==>
      FieldsAt(o, l, s, 0) == [s[0], s[1], s[2]]
  }

  ghost predicate ScreenIs(l: Layout) {
    Regular(l) && SizeOfLayout(l) == 40 && forall o, s: seq<byte> {:trigger FieldsAt(o, l, s, 0)} :: |s| >= 40 ==>
      FieldsAt(o, l, s, 0)
      == [U32(o, s, 0), U32(o, s, 4), U32(o, s, 8), U32(o, s, 12), U32(o, s, 16)]
         + [U16(o, s, 20), U16(o, s, 22), U16(o, s, 24), U16(o, s, 26), U16(o, s, 28), U16(o, s, 30), U32(o, s, 32),
            s[36], s[37], s[38], s[39]]
  }

  ghost predicate DepthIs(l: Layout) {
    Regular(l) && SizeOfLayout(l) == 8 && forall o, s: seq<byte> {:trigger FieldsAt(o, l, s, 0)} :: |s| >= 8 ==>
      FieldsAt(o, l, s, 0) == [s[0], U16(o, s, 2)]
  }

  ghost predicate VisualIs(l: Layout) {
    Regular(l) && SizeOfLayout(l) == 24 && forall o, s: seq<byte> {:trigger FieldsAt(o, l, s, 0)} :: |s| >= 24 ==>
      FieldsAt(o, l, s, 0) == [U32(o, s, 0), s[4], s[5], U16(o, s, 6), U32(o, s, 8), U32(o, s, 12), U32(o, s, 16)]
  }

  /** The parts of an acceptance, field by field, as the protocol places them. */
  ghost predicate Placed(x: Shapes) {
    CountedIs(x.counted) && TraitsIs(x.traits) && FormatIs(x.format) && ScreenIs(x.screen) && DepthIs(x.depth) && VisualIs(x.visual)
  }

  lemma CountedIsPlaced()
    ensures CountedIs(COUNTED)
  {
    CountedFields(LsbFirst, seq(22, _ => 0));
    forall o, s: seq<byte> | |s| >= 22 { CountedFields(o, s); }
  }

  lemma TraitsIsPlaced()
    ensures TraitsIs(TRAITS)
  {
    TraitsFields(LsbFirst, seq(10, _ => 0));
    forall o, s: seq<byte> | |s| >= 10 { TraitsFields(o, s); }
  }

  lemma FormatIsPlaced()
    ensures FormatIs(FORMAT)
  {
    FormatFields(LsbFirst, seq(8, _ => 0));
    forall o, s: seq<byte> | |s| >= 8 { FormatFields(o, s); }
  }

  lemma ScreenIsPlaced()
    ensures ScreenIs(SCREEN)
  {
    ScreenFields(LsbFirst, seq(40, _ => 0));
    forall o, s: seq<byte> | |s| >= 40 { ScreenFields(o, s); }
  }

  lemma DepthIsPlaced()
    ensures DepthIs(DEPTH)
  {
    DepthFields(LsbFirst, seq(8, _ => 0));
    forall o, s: seq<byte> | |s| >= 8 { DepthFields(o, s); }
  }

  lemma VisualIsPlaced()
    ensures VisualIs(VISUAL)
  {
    VisualFields(LsbFirst, seq(24, _ => 0));
    forall o, s: seq<byte> | |s| >= 24 { VisualFields(o, s); }
  }

  /** The layouts by which a server's answer opens a connection are the protocol's. */
  lemma X11IsPlaced()
    ensures OpensBy(X11) && Placed(X11)
  {
    X11Opens();
    CountedIsPlaced();
    TraitsIsPlaced();
    FormatIsPlaced();
    ScreenIsPlaced();
    DepthIsPlaced();
    VisualIsPlaced();
  }

  // ---- an acceptance ----

  /** A fixed part that ends in a count, and what it counts. */
  lemma PartPlaces(o: ByteOrder, l: Layout, head: seq<nat>, n: nat, list: seq<byte>, more: seq<byte>, fields: seq<nat>)
    requires Regular(l) && Fits(l, head + [n])
    requires FieldsAt(o, l, Encode(o, l, head + [n]) + (list + more), 0) == fields
    ensures var s := Encode(o, l, head + [n]) + list + more;
      && |s| >= SizeOfLayout(l) && s[SizeOfLayout(l)..] == list + more
      && fields != [] && head == fields[..|fields| - 1] && n == fields[|fields| - 1]
  {
    var vs := head + [n];
    Regroup(Encode(o, l, vs), list, more);
    EncodedAt(o, l, vs, list + more);
    assert vs[..|vs| - 1] == head;
  }

  /** A depth: its first byte, and in bytes 2 and 3 the number of the visual types from byte 8 on. */
  lemma DepthPlaces(x: Shapes, o: ByteOrder, d: Depth, more: seq<byte>)
    requires DepthIs(x.depth) && DepthFits(x, d)
    ensures var s := EncodeDepth(x, o, d) + more;
      && |s| >= 8 && d.head == [s[0]] && U16(o, s, 2) == |d.members|
      && s[8..] == Flatten(EncodeRecords(o, x.visual, d.members)) + more
  {
    var fixed, list := Encode(o, x.depth, d.head + [|d.members|]), Flatten(EncodeRecords(o, x.visual, d.members));
    var s := fixed + (list + more);
    Regroup(fixed, list, more);
    PartPlaces(o, x.depth, d.head, |d.members|, list, more, [s[0], U16(o, s, 2)]);
  }

  /** A screen: its fields, and in byte 39 the number of the depths from byte 40 on. */
  lemma ScreenPlaces(x: Shapes, o: ByteOrder, c: Screen, more: seq<byte>)
    requires ScreenIs(x.screen) && ScreenFits(x, c)
    ensures var s := EncodeScreen(x, o, c) + more;
      && |s| >= 40 && s[39] == |c.members| && s[40..] == Flatten(EncodeDepths(x, o, c.members)) + more
      && c.head == [U32(o, s, 0), U32(o, s, 4), U32(o, s, 8), U32(o, s, 12), U32(o, s, 16)]
                   + [U16(o, s, 20), U16(o, s, 22), U16(o, s, 24), U16(o, s, 26), U16(o, s, 28), U16(o, s, 30), U32(o, s, 32),
                      s[36], s[37], s[38]]
  {
    var fixed, list := Encode(o, x.screen, c.head + [|c.members|]), Flatten(EncodeDepths(x, o, c.members));
    var s := fixed + (list + more);
    Regroup(fixed, list, more);
    PartPlaces(o, x.screen, c.head, |c.members|, list, more, FieldsAt(o, x.screen, s, 0));
  }

  lemma CountedPlaces(o: ByteOrder, l: Layout, head: seq<nat>, screens: nat, formats: nat, more: seq<byte>)
    requires CountedIs(l) && |head| == 6 && Fits(l, head + [screens, formats])
    ensures var s := Encode(o, l, head + [screens, formats]) + more;
      && |s| >= 22 && s[20] == screens && s[21] == formats
      && head == [U32(o, s, 0), U32(o, s, 4), U32(o, s, 8), U32(o, s, 12), U16(o, s, 16), U16(o, s, 18)]
  {
    EncodedAt(o, l, head + [screens, formats], more);
    var s := Encode(o, l, head + [screens, formats]) + more;
    assert head + [screens, formats] == FieldsAt(o, l, s, 0);
    assert head == FieldsAt(o, l, s, 0)[..6];
  }

  lemma TraitsPlaces(o: ByteOrder, l: Layout, traits: seq<nat>, before: seq<byte>, more: seq<byte>)
    requires TraitsIs(l) && Fits(l, traits) && |before| == 22
    ensures var s := before + (Encode(o, l, traits) + more);
      |s| >= 32 && traits == [s[22], s[23], s[24], s[25], s[26], s[27]]
  {
    EncodedAt(o, l, traits, more);
  }

  /** The body of an acceptance: its fields; in bytes 16 and 17 the length of the vendor string, which is from byte
      32 on, in byte 20 the number of screens and in byte 21 that of the formats, which are behind it. */
  lemma BodyPlaces(x: Shapes, o: ByteOrder, a: Acceptance)
    requires CountedIs(x.counted) && TraitsIs(x.traits) && AcceptanceFits(x, a)
    ensures var s := EncodeBody(x, o, a); var n := |a.vendor|;
      && |s| >= 32 + Pad(n) && s[32..32 + n] == a.vendor && s[20] == |a.screens| && s[21] == |a.formats|
      && a.head == [U32(o, s, 0), U32(o, s, 4), U32(o, s, 8), U32(o, s, 12), U16(o, s, 16), U16(o, s, 18)] && a.head[4] == n
      && a.traits == [s[22], s[23], s[24], s[25], s[26], s[27]]
      && s[32 + Pad(n)..] == EncodeLists(x, o, a.formats, a.screens)
  {
    var first := Encode(o, x.counted, a.head + [|a.screens|, |a.formats|]);
    var second, lists := Encode(o, x.traits, a.traits), EncodeLists(x, o, a.formats, a.screens);
    var rest := Padded(a.vendor) + lists;
    BodyOf(x, o, a, first, second, rest);
    CountedPlaces(o, x.counted, a.head, |a.screens|, |a.formats|, second + rest);
    TraitsPlaces(o, x.traits, a.traits, first, rest);
    VendorPlaces(first, second, a.vendor, lists);
  }

  lemma BodyOf(x: Shapes, o: ByteOrder, a: Acceptance, first: seq<byte>, second: seq<byte>, rest: seq<byte>)
    requires AcceptanceFits(x, a) && first == Encode(o, x.counted, a.head + [|a.screens|, |a.formats|])
    requires second == Encode(o, x.traits, a.traits) && rest == Padded(a.vendor) + EncodeLists(x, o, a.formats, a.screens)
    ensures EncodeBody(x, o, a) == first + (second + rest)
  {
    Regroup(first, second, rest);
  }

  lemma VendorPlaces(first: seq<byte>, second: seq<byte>, vendor: seq<byte>, lists: seq<byte>)
    ensures var s := first + (second + (Padded(vendor) + lists)); var n := |first| + |second|;
      s[n..n + |vendor|] == vendor && s[n + Pad(|vendor|)..] == lists
  {
    var s, n := first + (second + (Padded(vendor) + lists)), |first| + |second|;
    assert s[n..] == Padded(vendor) + lists;
    assert Padded(vendor)[..|vendor|] == vendor;
  }
}
