/**
 The authorization file: read whole, given an entry for the proxy's display, and written back.

 All lengths and families are in network byte order. `None` means that the process ends: an assertion
 fails, or the real display has no usable entry.
 */
module XAuth {
  import opened Bytes

  /** "MIT-MAGIC-COOKIE-1" */
  const AUTH_NAME: seq<byte> := [77, 73, 84, 45, 77, 65, 71, 73, 67, 45, 67, 79, 79, 75, 73, 69, 45, 49]
  const DATA_SZ: nat := 16
  const ADDR_MAX: nat := 64
  const DISPLAY_MAX: nat := 64
  const NAME_MAX: nat := 255

  datatype Entry = Entry(family: nat, addr: seq<byte>, display: seq<byte>, name: seq<byte>, data: seq<byte>) {
    /** It fits the record it is read into. */
    predicate Fits() {
      && family < 0x1_0000 && |addr| < ADDR_MAX && |display| < DISPLAY_MAX && |name| < NAME_MAX && |data| == DATA_SZ
    }

    function Size(): nat { 2 + 2 + |addr| + 2 + |display| + 2 + |name| + 2 + |data| }
  }

  // ---- writing ----

  function Counted(s: seq<byte>): (r: seq<byte>)
    requires |s| < 0x1_0000
    ensures |r| == 2 + |s|
  {
    Enc16(MsbFirst, |s|) + s
  }

  function Write(e: Entry): (r: seq<byte>)
    requires e.Fits()
    ensures |r| == e.Size()
  {
    Enc16(MsbFirst, e.family) + (Counted(e.addr) + (Counted(e.display) + (Counted(e.name) + Counted(e.data))))
  }

  predicate AllFit(es: seq<Entry>) { forall e <- es :: e.Fits() }

  function WriteAll(es: seq<Entry>): (r: seq<byte>)
    requires AllFit(es)
    ensures |r| >= |es|
  {
    if es == [] then [] else Write(es[0]) + WriteAll(es[1..])
  }

  method WriteEntries(es: seq<Entry>) returns (file: seq<byte>)
    requires AllFit(es)
    ensures file == WriteAll(es)
  {
    file := [];
    for i := 0 to |es|
      invariant file + WriteAll(es[i..]) == WriteAll(es)
    {
      assert es[i] in es && es[i..][1..] == es[i + 1..];
      assert file + (Write(es[i]) + WriteAll(es[i + 1..])) == file + Write(es[i]) + WriteAll(es[i + 1..]);
      file := file + Write(es[i]);
    }
  }

  // ---- reading ----

  function Zeros(n: nat): seq<byte> { seq(n, _ => 0) }

  /** A read of `n` bytes into a zeroed record. What the file does not have stays zero. */
  function Read(s: seq<byte>, n: nat): (r: seq<byte>)
    ensures |r| == n
  {
    if n <= |s| then s[..n] else s + Zeros(n - |s|)
  }

  /** What is left to read after that. */
  function After(s: seq<byte>, n: nat): seq<byte> { if n <= |s| then s[n..] else [] }

  function ReadNumber(s: seq<byte>): (n: nat)
    ensures n < 0x1_0000
  {
    U16(MsbFirst, Read(s, 2), 0)
  }

  /** A length and as many bytes; the bytes, and what is left to read. */
  function ReadCounted(s: seq<byte>, limit: nat): (r: Option<(seq<byte>, seq<byte>)>)
    ensures r.Some? ==> |r.value.0| < limit && |r.value.1| <= |s|
  {
    var n := ReadNumber(s);
    if n >= limit then None else Some((Read(After(s, 2), n), After(After(s, 2), n)))
  }

  function ReadEntry(s: seq<byte>): (r: Option<(Entry, seq<byte>)>)
    ensures r.Some? ==> r.value.0.Fits() && (r.value.1 == [] || |r.value.1| < |s|)
  {
    var addr := ReadCounted(After(s, 2), ADDR_MAX);
    if addr.None? then None
    else
      var display := ReadCounted(addr.value.1, DISPLAY_MAX);
      if display.None? then None
      else
        var name := ReadCounted(display.value.1, NAME_MAX);
        if name.None? then None
        else
          var data := ReadCounted(name.value.1, DATA_SZ + 1);
          if data.None? || |data.value.0| != DATA_SZ then None
          else Some((Entry(ReadNumber(s), addr.value.0, display.value.0, name.value.0, data.value.0), data.value.1))
  }

  function Prepend(es: seq<Entry>, rest: Option<seq<Entry>>): Option<seq<Entry>> {
    if rest.None? then None else Some(es + rest.value)
  }

  /** Entry after entry, until nothing is left. There is always a first one. */
  function ReadAll(s: seq<byte>): (r: Option<seq<Entry>>)
    ensures r.Some? ==> r.value != [] && AllFit(r.value)
    decreases |s|
  {
    var first := ReadEntry(s);
    if first.None? then None
    else if first.value.1 == [] then Some([first.value.0])
    else Prepend([first.value.0], ReadAll(first.value.1))
  }

  lemma PrependNothing(rest: Option<seq<Entry>>)
    ensures Prepend([], rest) == rest
  {
    assert rest.Some? ==> [] + rest.value == rest.value;
  }

  lemma PrependTwice(es: seq<Entry>, e: Entry, rest: Option<seq<Entry>>)
    ensures Prepend(es, Prepend([e], rest)) == Prepend(es + [e], rest)
  {
    assert rest.Some? ==> es + ([e] + rest.value) == es + [e] + rest.value;
  }

  /** Where the reading loop stands: what it has read so far, and what the whole file gives. */
  lemma NextEntry(whole: Option<seq<Entry>>, es: seq<Entry>, s: seq<byte>)
    requires whole == Prepend(es, ReadAll(s))
    ensures var e := ReadEntry(s);
      if e.None? then whole.None?
      else if e.value.1 == [] then whole == Some(es + [e.value.0])
      else whole == Prepend(es + [e.value.0], ReadAll(e.value.1))
  {
    var e := ReadEntry(s);
    if e.Some? {
      PrependTwice(es, e.value.0, ReadAll(e.value.1));
    }
  }

  method ReadEntries(file: seq<byte>) returns (es: Option<seq<Entry>>)
    ensures es == ReadAll(file)
  {
    var entries, rest, eof := [], file, false;
    ghost var whole := ReadAll(file);
    PrependNothing(whole);
    while !eof
      invariant if eof then whole == Some(entries) else whole == Prepend(entries, ReadAll(rest))
      decreases !eof, |rest|
    {
      NextEntry(whole, entries, rest);
      var e := ReadEntry(rest);
      if e.None? {
        return None;
      }
      entries, rest := entries + [e.value.0], e.value.1;
      eof := rest == [];
    }
    return Some(entries);
  }

  // ---- round trips ----

  lemma CountedReads(s: seq<byte>, limit: nat, rest: seq<byte>)
    requires |s| < limit <= 0x1_0000
    ensures ReadCounted(Counted(s) + rest, limit) == Some((s, rest))
  {
    var t, len := Counted(s) + rest, Enc16(MsbFirst, |s|);
    assert Read(t, 2) == len && After(t, 2) == s + rest;
    assert Read(s + rest, |s|) == s && After(s + rest, |s|) == rest;
  }

  lemma EntryReads(e: Entry, rest: seq<byte>)
    requires e.Fits()
    ensures ReadEntry(Write(e) + rest) == Some((e, rest))
  {
    var data := Counted(e.data) + rest;
    var name := Counted(e.name) + data;
    var display := Counted(e.display) + name;
    var addr := Counted(e.addr) + display;
    var family := Enc16(MsbFirst, e.family);
    var s := Write(e) + rest;
    assert s == family + addr;
    assert Read(s, 2) == family && After(s, 2) == addr;
    CountedReads(e.addr, ADDR_MAX, display);
    CountedReads(e.display, DISPLAY_MAX, name);
    CountedReads(e.name, NAME_MAX, data);
    CountedReads(e.data, DATA_SZ + 1, rest);
  }

  lemma CountedFails(s: seq<byte>, limit: nat, rest: seq<byte>)
    requires limit <= |s| < 0x1_0000
    ensures ReadCounted(Counted(s) + rest, limit).None?
  {
    assert Read(Counted(s) + rest, 2) == Enc16(MsbFirst, |s|);
  }

  /** Whatever strings stand in a file, counted in network byte order, an entry is read from them if and only if the first two are shorter
      than 64 bytes, the third than 255, and the last is a cookie of 16. */
  lemma EntryReadsExactly(family: nat, addr: seq<byte>, display: seq<byte>, name: seq<byte>, data: seq<byte>, rest: seq<byte>)
    requires family < 0x1_0000 && |addr| < 0x1_0000 && |display| < 0x1_0000 && |name| < 0x1_0000 && |data| < 0x1_0000
    ensures var s := Enc16(MsbFirst, family) + (Enc16(MsbFirst, |addr|) + addr + (Enc16(MsbFirst, |display|) + display
                     + (Enc16(MsbFirst, |name|) + name + (Enc16(MsbFirst, |data|) + data + rest))));
      ReadEntry(s)
      == if |addr| < 64 && |display| < 64 && |name| < 255 && |data| == 16
         then Some((Entry(family, addr, display, name, data), rest)) else None
  {
    var s3 := Counted(data) + rest;
    var s2 := Counted(name) + s3;
    var s1 := Counted(display) + s2;
    var s0 := Counted(addr) + s1;
    var s := Enc16(MsbFirst, family) + s0;
    assert Read(s, 2) == Enc16(MsbFirst, family) && After(s, 2) == s0;
    FieldReads(addr, 64, s1);
    FieldReads(display, 64, s2);
    FieldReads(name, 255, s3);
    FieldReads(data, 17, rest);
  }

  lemma FieldReads(s: seq<byte>, limit: nat, rest: seq<byte>)
    requires |s| < 0x1_0000 && limit <= 0x1_0000
    ensures ReadCounted(Counted(s) + rest, limit) == if |s| < limit then Some((s, rest)) else None
  {
    if |s| < limit {
      CountedReads(s, limit, rest);
    } else {
      CountedFails(s, limit, rest);
    }
  }

  lemma NextReads(e: Entry, rest: seq<byte>)
    requires e.Fits()
    ensures ReadAll(Write(e) + rest) == if rest == [] then Some([e]) else Prepend([e], ReadAll(rest))
  {
    EntryReads(e, rest);
  }

  lemma WriteAllCons(e: Entry, es: seq<Entry>)
    requires e.Fits() && AllFit(es)
    ensures AllFit([e] + es) && WriteAll([e] + es) == Write(e) + WriteAll(es)
  {
    assert ([e] + es)[1..] == es;
  }

  lemma EntriesCons(e: Entry, es: seq<Entry>)
    requires e.Fits() && AllFit(es) && (es == [] || ReadAll(WriteAll(es)) == Some(es))
    ensures ReadAll(Write(e) + WriteAll(es)) == Some([e] + es)
  {
    var rest := WriteAll(es);
    assert es == [] <==> rest == [];
    assert es == [] ==> [e] + es == [e];
    NextReads(e, rest);
  }

  /** Reading what was written gives the entries back. */
  lemma {:induction false} EntriesRoundTrip(es: seq<Entry>)
    requires AllFit(es) && es != []
    ensures ReadAll(WriteAll(es)) == Some(es)
    decreases |es|
  {
    var e, rest := es[0], es[1..];
    assert e in es && es == [e] + rest;
    if rest != [] {
      EntriesRoundTrip(rest);
    }
    EntriesCons(e, rest);
    WriteAllCons(e, rest);
  }

  lemma NumberWritten(s: seq<byte>)
    requires |s| == 2
    ensures Enc16(MsbFirst, U16(MsbFirst, s, 0)) == s
  {
  }

  /** A counted field is written back as it was read; one that the file's end cut short is completed with zeros. */
  lemma CountedWritten(s: seq<byte>, limit: nat)
    requires ReadCounted(s, limit).Some? && |s| >= 2 && limit <= 0x1_0000
    ensures var (x, rest) := ReadCounted(s, limit).value;
      if 2 + |x| <= |s| then Counted(x) + rest == s else rest == [] && Counted(x) == s + Zeros(2 + |x| - |s|)
  {
    NumberWritten(s[..2]);
    var (x, rest) := ReadCounted(s, limit).value;
    assert s == s[..2] + s[2..];
  }

  lemma CountedComplete(s: seq<byte>, limit: nat)
    requires ReadCounted(s, limit).Some? && ReadCounted(s, limit).value.1 != [] && limit <= 0x1_0000
    ensures Counted(ReadCounted(s, limit).value.0) + ReadCounted(s, limit).value.1 == s
  {
    CountedWritten(s, limit);
  }

  /** A length of sixteen is read only from two bytes that are there. */
  lemma ShortNumber(s: seq<byte>)
    requires |s| < 2
    ensures ReadNumber(s) != DATA_SZ
  {
    assert Read(s, 2)[1] == 0;
  }

  /** Two counted fields and what follows them. */
  lemma FieldsComplete(s: seq<byte>, limit: nat, limit': nat)
    requires limit <= 0x1_0000 && limit' <= 0x1_0000
    requires ReadCounted(s, limit).Some? && ReadCounted(ReadCounted(s, limit).value.1, limit').Some?
    requires ReadCounted(ReadCounted(s, limit).value.1, limit').value.1 != []
    ensures var (x, rest) := ReadCounted(s, limit).value; var (x', rest') := ReadCounted(rest, limit').value;
      rest != [] && s == Counted(x) + (Counted(x') + rest')
  {
    var rest := ReadCounted(s, limit).value.1;
    CountedComplete(rest, limit');
    CountedComplete(s, limit);
  }

  lemma FamilyWritten(s: seq<byte>)
    requires After(s, 2) != []
    ensures s == Enc16(MsbFirst, ReadNumber(s)) + After(s, 2)
  {
    NumberWritten(s[..2]);
    assert s == s[..2] + After(s, 2);
  }

  /** What precedes a cookie that is announced is complete. */
  lemma FieldsWritten(s: seq<byte>)
    requires ReadEntry(s).Some?
    ensures ReadEntry(s).value.0.Fits()
    ensures var e := ReadEntry(s).value.0; var cookie := CookieAt(s);
      && |cookie| >= 2 && ReadCounted(cookie, DATA_SZ + 1) == Some((e.data, ReadEntry(s).value.1))
      && s == Enc16(MsbFirst, e.family) + (Counted(e.addr) + (Counted(e.display) + (Counted(e.name) + cookie)))
  {
    var cookie := CookieAt(s);
    if |cookie| < 2 {
      ShortNumber(cookie);
    }
    var display := ReadCounted(After(s, 2), ADDR_MAX).value.1;
    FieldsComplete(display, DISPLAY_MAX, NAME_MAX);
    CountedComplete(After(s, 2), ADDR_MAX);
    FamilyWritten(s);
  }

  /** The part of an entry after its name. */
  function CookieAt(s: seq<byte>): seq<byte>
    requires ReadEntry(s).Some?
  {
    ReadCounted(ReadCounted(ReadCounted(After(s, 2), ADDR_MAX).value.1, DISPLAY_MAX).value.1, NAME_MAX).value.1
  }

  /** An entry is written back as it was read, except that a cookie cut short by the file's end is
      completed with zeros. */
  lemma EntryWritten(s: seq<byte>) returns (k: nat)
    requires ReadEntry(s).Some?
    ensures k <= DATA_SZ && Write(ReadEntry(s).value.0) + ReadEntry(s).value.1 == s + Zeros(k)
    ensures k > 0 ==> ReadEntry(s).value.1 == []
  {
    var (e, rest) := ReadEntry(s).value;
    var cookie := CookieAt(s);
    FieldsWritten(s);
    CountedWritten(cookie, DATA_SZ + 1);
    k := if 2 + DATA_SZ <= |cookie| then 0 else 2 + DATA_SZ - |cookie|;
    assert Counted(e.data) + rest == cookie + Zeros(k);
    SameTail(Enc16(MsbFirst, e.family), Counted(e.addr), Counted(e.display), Counted(e.name), Counted(e.data), rest, cookie, Zeros(k));
  }

  lemma SameTail(a: seq<byte>, b: seq<byte>, c: seq<byte>, d: seq<byte>, e: seq<byte>, f: seq<byte>, e': seq<byte>, f': seq<byte>)
    requires e + f == e' + f'
    ensures a + (b + (c + (d + e))) + f == a + (b + (c + (d + e'))) + f'
  {
    assert a + (b + (c + (d + e))) + f == a + (b + (c + (d + (e + f))));
    assert a + (b + (c + (d + e'))) + f' == a + (b + (c + (d + (e' + f'))));
  }

  /** Writing the entries read from a file reproduces it byte for byte if and only if its last cookie is
      complete; otherwise the missing bytes are zeros. */
  lemma {:induction false} FileRoundTrip(s: seq<byte>) returns (k: nat)
    requires ReadAll(s).Some?
    ensures k <= DATA_SZ && WriteAll(ReadAll(s).value) == s + Zeros(k)
    ensures WriteAll(ReadAll(s).value) == s <==> k == 0
    decreases |s|
  {
    var (e, rest) := ReadEntry(s).value;
    k := EntryWritten(s);
    if rest == [] {
      WriteAllCons(e, []);
      Regroup(Write(e), [], []);
      assert [e] + [] == [e];
    } else {
      Regroup(s, [], []);
      k := FileRoundTrip(rest);
      WriteAllCons(e, ReadAll(rest).value);
      Regroup(Write(e), rest, Zeros(k));
    }
  }

  // ---- editing ----

  predicate IsSpace(b: byte) { b == 32 || 9 <= b <= 13 }

  predicate IsDigit(b: byte) { 48 <= b <= 57 }

  function DigitValue(b: byte): nat
    requires IsDigit(b)
  {
    b - 48
  }

  /** The value of the digits at the front of `s`, after `n`. */
  function Digits(s: seq<byte>, n: nat): nat {
    if s == [] || !IsDigit(s[0]) then n else Digits(s[1..], 10 * n + DigitValue(s[0]))
  }

  /** strtol(3) in base ten: no digits make zero. (It saturates far above every display number.) */
  function Number(s: seq<byte>): int {
    if s == [] then 0
    else if IsSpace(s[0]) then Number(s[1..])
    else if s[0] == 45 then 0 - Digits(s[1..], 0) as int
    else if s[0] == 43 then Digits(s[1..], 0)
    else Digits(s, 0)
  }

  function DisplayOf(e: Entry): int { Number(CString(e.display)) }

  function Decimal(n: nat): (s: seq<byte>)
    ensures s != [] && forall b <- s :: IsDigit(b)
  {
    if n < 10 then [48 + n] else Decimal(n / 10) + [48 + n % 10]
  }

  const DISPLAY_LIMIT: nat := 0x8000_0000

  lemma {:induction false} DigitsSnoc(s: seq<byte>, b: byte, n: nat)
    requires IsDigit(b) && forall c <- s :: IsDigit(c)
    ensures Digits(s + [b], n) == 10 * Digits(s, n) + DigitValue(b)
    decreases |s|
  {
    if s == [] {
      assert (s + [b])[1..] == [];
    } else {
      assert (s + [b])[1..] == s[1..] + [b];
      DigitsSnoc(s[1..], b, 10 * n + DigitValue(s[0]));
    }
  }

  lemma {:induction false} DecimalReads(n: nat)
    ensures Number(CString(Decimal(n))) == n && (|Decimal(n)| > 1 ==> Decimal(n)[0] != 48)
  {
    NoLeadingZero(n);
    CStringKeepsAll(Decimal(n));
    DecimalDigits(n);
  }

  lemma {:induction false} NoLeadingZero(n: nat)
    ensures |Decimal(n)| > 1 ==> Decimal(n)[0] != 48
  {
    if n >= 10 {
      NoLeadingZero(n / 10);
    }
  }

  lemma {:induction false} DecimalDigits(n: nat)
    ensures Digits(Decimal(n), 0) == n
  {
    if n >= 10 {
      DecimalDigits(n / 10);
      DigitsSnoc(Decimal(n / 10), 48 + n % 10, 0);
    }
  }

  lemma {:induction false} DigitsStop(s: seq<byte>, tail: seq<byte>, n: nat)
    requires (forall c <- s :: IsDigit(c)) && (tail == [] || !IsDigit(tail[0]))
    ensures Digits(s + tail, n) == Digits(s, n)
    decreases |s|
  {
    if s == [] {
      assert s + tail == tail;
    } else {
      assert (s + tail)[1..] == s[1..] + tail;
      DigitsStop(s[1..], tail, 10 * n + DigitValue(s[0]));
    }
  }

  lemma {:induction false} SpacesSkipped(spaces: seq<byte>, s: seq<byte>)
    requires forall i :: 0 <= i < |spaces| ==> spaces[i] == 32 || 9 <= spaces[i] <= 13
    ensures Number(spaces + s) == Number(s)
    decreases |spaces|
  {
    if spaces == [] {
      assert spaces + s == s;
    } else {
      assert (spaces + s)[1..] == spaces[1..] + s;
      SpacesSkipped(spaces[1..], s);
    }
  }

  lemma Signed(n: nat, sign: seq<byte>, tail: seq<byte>)
    requires sign == [] || sign == Ascii("+") || sign == Ascii("-")
    requires tail == [] || !(48 <= tail[0] <= 57)
    ensures Number(sign + (Decimal(n) + tail)) == if sign == Ascii("-") then 0 - n as int else n as int
  {
    var digits := Decimal(n) + tail;
    DigitsStop(Decimal(n), tail, 0);
    DecimalDigits(n);
    assert digits[0] == Decimal(n)[0];
    if sign == [] {
      assert sign + digits == digits;
    } else {
      assert sign == [if sign == Ascii("-") then 45 else 43];
      assert (sign + digits)[1..] == digits;
    }
  }

  /** A display string in front of a zero byte, or whole, is the number that it has in decimal behind white space and
      a sign, whatever follows the digits. */
  lemma NumberReads(spaces: seq<byte>, sign: seq<byte>, n: nat, tail: seq<byte>)
    requires forall i :: 0 <= i < |spaces| ==> spaces[i] == 32 || 9 <= spaces[i] <= 13
    requires sign == [] || sign == Ascii("+") || sign == Ascii("-")
    requires tail == [] || !(48 <= tail[0] <= 57)
    ensures Number(spaces + (sign + (Decimal(n) + tail))) == if sign == Ascii("-") then 0 - n as int else n as int
  {
    Signed(n, sign, tail);
    SpacesSkipped(spaces, sign + (Decimal(n) + tail));
  }

  lemma {:induction false} DecimalIsShort(n: nat, width: nat, limit: nat)
    requires width >= 1 && n < limit && limit <= Power(width)
    ensures |Decimal(n)| <= width
    decreases width
  {
    if n >= 10 {
      DecimalIsShort(n / 10, width - 1, Power(width - 1));
    }
  }

  function Power(width: nat): nat { if width == 0 then 1 else 10 * Power(width - 1) }

  /** The entries found so far for the proxy's display and for the actual one. */
  datatype Scan = Scan(proxy: Option<nat>, actual: Option<nat>)

  predicate HasCookie(e: Entry) { CString(e.name) == AUTH_NAME }

  /** A later entry for the same display takes the place of an earlier one. */
  function Look(sc: Scan, e: Entry, i: nat, proxy: nat, actual: nat): Option<Scan> {
    if (DisplayOf(e) == proxy || DisplayOf(e) == actual) && !HasCookie(e) then None
    else Some(Scan(if DisplayOf(e) == proxy then Some(i) else sc.proxy, if DisplayOf(e) == actual then Some(i) else sc.actual))
  }

  /** The scan of the first `n` entries. It stops once both displays are found. */
  function ScanFirst(es: seq<Entry>, n: nat, proxy: nat, actual: nat): Option<Scan>
    requires n <= |es|
  {
    if n == 0 then Some(Scan(None, None))
    else
      var before := ScanFirst(es, n - 1, proxy, actual);
      if before.None? || (before.value.proxy.Some? && before.value.actual.Some?) then before
      else Look(before.value, es[n - 1], n - 1, proxy, actual)
  }

  /** The real display's entry, as an entry for the proxy's. */
  function Duplicate(e: Entry, proxy: nat): Entry { e.(display := Decimal(proxy)) }

  function Edit(es: seq<Entry>, proxy: nat, actual: nat): Option<seq<Entry>> {
    var sc := ScanFirst(es, |es|, proxy, actual);
    if sc.None? || sc.value.actual.None? || sc.value.actual.value >= |es| then None
    else
      var dup := Duplicate(es[sc.value.actual.value], proxy);
      if sc.value.proxy.None? || sc.value.proxy.value >= |es| then Some(es + [dup])
      else Some(es[sc.value.proxy.value := dup])
  }

  method EditEntries(es: seq<Entry>, proxy: nat, actual: nat) returns (edited: Option<seq<Entry>>)
    ensures edited == Edit(es, proxy, actual)
  {
    var found := Scan(None, None);
    var i := 0;
    while i < |es|
      invariant i <= |es| && ScanFirst(es, i, proxy, actual) == Some(found)
      invariant i < |es| ==> found.proxy.None? || found.actual.None?
    {
      ScanStep(es, i, proxy, actual, found);
      if DisplayOf(es[i]) == proxy {
        if !HasCookie(es[i]) {
          ScanFails(es, i + 1, proxy, actual);
          return None;
        }
        found := found.(proxy := Some(i));
      }
      if DisplayOf(es[i]) == actual {
        if !HasCookie(es[i]) {
          ScanFails(es, i + 1, proxy, actual);
          return None;
        }
        found := found.(actual := Some(i));
      }
      i := i + 1;
      if found.proxy.Some? && found.actual.Some? {
        ScanStops(es, i, proxy, actual);
        break;
      }
    }
    ScanFinds(es, |es|, proxy, actual);
    if found.actual.None? {
      return None;
    }
    var dup := Duplicate(es[found.actual.value], proxy);
    if found.proxy.Some? {
      return Some(es[found.proxy.value := dup]);
    }
    return Some(es + [dup]);
  }

  lemma ScanStep(es: seq<Entry>, i: nat, proxy: nat, actual: nat, found: Scan)
    requires i < |es| && ScanFirst(es, i, proxy, actual) == Some(found) && (found.proxy.None? || found.actual.None?)
    ensures ScanFirst(es, i + 1, proxy, actual) == Look(found, es[i], i, proxy, actual)
  {
  }

  lemma {:induction false} ScanFails(es: seq<Entry>, n: nat, proxy: nat, actual: nat)
    requires n <= |es| && ScanFirst(es, n, proxy, actual).None?
    ensures ScanFirst(es, |es|, proxy, actual).None?
    decreases |es| - n
  {
    if n < |es| {
      ScanFails(es, n + 1, proxy, actual);
    }
  }

  lemma {:induction false} ScanStops(es: seq<Entry>, n: nat, proxy: nat, actual: nat)
    requires n <= |es| && ScanFirst(es, n, proxy, actual).Some?
    requires var sc := ScanFirst(es, n, proxy, actual).value; sc.proxy.Some? && sc.actual.Some?
    ensures ScanFirst(es, |es|, proxy, actual) == ScanFirst(es, n, proxy, actual)
    decreases |es| - n
  {
    if n < |es| {
      ScanStops(es, n + 1, proxy, actual);
    }
  }

  /** What the scan knows: an entry it has found is one for its display, with a cookie; a display it has
      not found has no entry. */
  predicate Found(es: seq<Entry>, n: nat, at: Option<nat>, display: nat)
    requires n <= |es|
  {
    if at.None? then forall j :: 0 <= j < n ==> DisplayOf(es[j]) != display
    else at.value < n && DisplayOf(es[at.value]) == display && HasCookie(es[at.value])
  }

  lemma {:induction false} ScanFinds(es: seq<Entry>, n: nat, proxy: nat, actual: nat)
    requires n <= |es| && ScanFirst(es, n, proxy, actual).Some?
    ensures var sc := ScanFirst(es, n, proxy, actual).value; Found(es, n, sc.proxy, proxy) && Found(es, n, sc.actual, actual)
    decreases n
  {
    if n > 0 {
      ScanFinds(es, n - 1, proxy, actual);
    }
  }

  /** The edit changes or appends at most one entry: the proxy's display then has the real display's entry
      but for the display itself, and every other entry is as it was. */
  lemma EditFrame(es: seq<Entry>, proxy: nat, actual: nat)
    requires Edit(es, proxy, actual).Some?
    ensures var es' := Edit(es, proxy, actual).value;
      exists o: nat :: o < |es| && DisplayOf(es[o]) == actual && HasCookie(es[o])
        && ((es' == es + [Duplicate(es[o], proxy)] && forall j :: 0 <= j < |es| ==> DisplayOf(es[j]) != proxy)
            || exists i: nat :: i < |es| && DisplayOf(es[i]) == proxy && es' == es[i := Duplicate(es[o], proxy)])
  {
    ScanFinds(es, |es|, proxy, actual);
    var sc := ScanFirst(es, |es|, proxy, actual).value;
    var o := sc.actual.value;
    assert o < |es| && DisplayOf(es[o]) == actual && HasCookie(es[o]);
    if sc.proxy.Some? {
      assert sc.proxy.value < |es| && DisplayOf(es[sc.proxy.value]) == proxy;
    }
  }

  // ---- which entries ----

  predicate Has(es: seq<Entry>, n: nat, display: nat)
    requires n <= |es|
  {
    exists j :: 0 <= j < n && DisplayOf(es[j]) == display
  }

  predicate LastWith(es: seq<Entry>, n: nat, display: nat, j: nat)
    requires n <= |es|
  {
    j < n && DisplayOf(es[j]) == display && forall i :: j < i < n ==> DisplayOf(es[i]) != display
  }

  /** The scan looks at the first `n` entries: up to the one that completes the two displays, or at all. */
  predicate LooksAt(es: seq<Entry>, n: nat, proxy: nat, actual: nat) {
    && n <= |es| && (n == |es| || (Has(es, n, proxy) && Has(es, n, actual)))
    && forall k: nat :: k < n ==> !(Has(es, k, proxy) && Has(es, k, actual))
  }

  predicate AllUsable(es: seq<Entry>, n: nat, proxy: nat, actual: nat)
    requires n <= |es|
  {
    forall j :: 0 <= j < n && (DisplayOf(es[j]) == proxy || DisplayOf(es[j]) == actual) ==>
      CString(es[j].name) == Ascii("MIT-MAGIC-COOKIE-1")
  }

  /** The last entry of a display among the first `n`, if there is one. */
  predicate IsLast(es: seq<Entry>, n: nat, display: nat, at: Option<nat>)
    requires n <= |es|
  {
    if at.None? then !Has(es, n, display) else LastWith(es, n, display, at.value)
  }

  lemma AuthName()
    ensures AUTH_NAME == Ascii("MIT-MAGIC-COOKIE-1")
  {
  }

  lemma {:induction false} ScanExactly(es: seq<Entry>, n: nat, proxy: nat, actual: nat)
    requires n <= |es| && forall k: nat :: k < n ==> !(Has(es, k, proxy) && Has(es, k, actual))
    ensures var sc := ScanFirst(es, n, proxy, actual);
      && (sc.Some? <==> AllUsable(es, n, proxy, actual))
      && (sc.Some? ==> IsLast(es, n, proxy, sc.value.proxy) && IsLast(es, n, actual, sc.value.actual))
    decreases n
  {
    if n > 0 {
      AuthName();
      ScanExactly(es, n - 1, proxy, actual);
      var before := ScanFirst(es, n - 1, proxy, actual);
      if before.Some? {
        LastMore(es, n - 1, proxy, before.value.proxy);
        LastMore(es, n - 1, actual, before.value.actual);
      }
    }
  }

  lemma LastMore(es: seq<Entry>, n: nat, display: nat, at: Option<nat>)
    requires n < |es| && IsLast(es, n, display, at)
    ensures IsLast(es, n + 1, display, if DisplayOf(es[n]) == display then Some(n) else at)
    ensures at.Some? <==> Has(es, n, display)
  {
    if at.Some? {
      assert DisplayOf(es[at.value]) == display;
    }
  }

  /** Of the entries that the scan looks at, all for either display must have a cookie, and one must be for the real
      display. The last one for the real display is then written, as the proxy's, over the last one for the proxy's,
      or behind all entries if there is none. */
  lemma EditExactly(es: seq<Entry>, proxy: nat, actual: nat, n: nat)
    requires LooksAt(es, n, proxy, actual)
    ensures Edit(es, proxy, actual).Some? <==> AllUsable(es, n, proxy, actual) && Has(es, n, actual)
    ensures Edit(es, proxy, actual).Some? ==>
      exists o: nat :: LastWith(es, n, actual, o) && var dup := es[o].(display := Decimal(proxy));
        if Has(es, n, proxy) then exists i: nat :: LastWith(es, n, proxy, i) && Edit(es, proxy, actual).value == es[i := dup]
        else Edit(es, proxy, actual).value == es + [dup]
  {
    ScanExactly(es, n, proxy, actual);
    var sc := ScanFirst(es, n, proxy, actual);
    if sc.None? {
      ScanFails(es, n, proxy, actual);
    } else {
      LastIs(es, n, proxy, sc.value.proxy);
      LastIs(es, n, actual, sc.value.actual);
      if n < |es| {
        ScanStops(es, n, proxy, actual);
      }
    }
  }

  lemma LastIs(es: seq<Entry>, n: nat, display: nat, at: Option<nat>)
    requires n <= |es| && IsLast(es, n, display, at)
    ensures at.Some? <==> Has(es, n, display)
  {
    if at.Some? {
      assert DisplayOf(es[at.value]) == display;
    }
  }

  /** How many entries the scan looks at is settled by their displays. */
  lemma {:induction false} LooksAtSome(es: seq<Entry>, k: nat, proxy: nat, actual: nat) returns (n: nat)
    requires k <= |es| && forall j: nat :: j < k ==> !(Has(es, j, proxy) && Has(es, j, actual))
    ensures LooksAt(es, n, proxy, actual)
    decreases |es| - k
  {
    if k == |es| || (Has(es, k, proxy) && Has(es, k, actual)) {
      n := k;
    } else {
      n := LooksAtSome(es, k + 1, proxy, actual);
    }
  }

  /** Entries alike in display and name are scanned alike. */
  lemma {:induction false} ScanAlike(es: seq<Entry>, es': seq<Entry>, n: nat, proxy: nat, actual: nat)
    requires n <= |es| && n <= |es'|
    requires forall j :: 0 <= j < n ==> DisplayOf(es[j]) == DisplayOf(es'[j]) && HasCookie(es[j]) == HasCookie(es'[j])
    ensures ScanFirst(es, n, proxy, actual) == ScanFirst(es', n, proxy, actual)
    decreases n
  {
    if n > 0 {
      ScanAlike(es, es', n - 1, proxy, actual);
    }
  }

  /** Editing twice is editing once. */
  lemma EditIsIdempotent(es: seq<Entry>, proxy: nat, actual: nat)
    requires Edit(es, proxy, actual).Some?
    ensures Edit(Edit(es, proxy, actual).value, proxy, actual) == Edit(es, proxy, actual)
  {
    var es' := Edit(es, proxy, actual).value;
    ScanFinds(es, |es|, proxy, actual);
    DecimalReads(proxy);
    ScanAlike(es, es', |es|, proxy, actual);
    var sc := ScanFirst(es, |es|, proxy, actual).value;
    if sc.proxy.Some? {
      assert es'[sc.proxy.value := Duplicate(es'[sc.actual.value], proxy)] == es';
    } else {
      assert ScanFirst(es', |es'|, proxy, actual) == Some(Scan(Some(|es|), sc.actual));
      assert es'[|es| := Duplicate(es'[sc.actual.value], proxy)] == es';
    }
  }

  /** The whole of it: read, edit, write back. */
  function CopyAuthentication(file: seq<byte>, proxy: nat, actual: nat): Option<seq<byte>>
    requires proxy < DISPLAY_LIMIT
  {
    var es := ReadAll(file);
    if es.None? then None
    else
      var edited := Edit(es.value, proxy, actual);
      if edited.None? then None
      else
        EditFits(es.value, proxy, actual);
        Some(WriteAll(edited.value))
  }

  lemma EditFits(es: seq<Entry>, proxy: nat, actual: nat)
    requires AllFit(es) && proxy < DISPLAY_LIMIT && Edit(es, proxy, actual).Some?
    ensures AllFit(Edit(es, proxy, actual).value) && Edit(es, proxy, actual).value != []
  {
    DecimalIsShort(proxy, 10, DISPLAY_LIMIT);
    ScanFinds(es, |es|, proxy, actual);
    var o := ScanFirst(es, |es|, proxy, actual).value.actual.value;
    assert es[o] in es && Duplicate(es[o], proxy).Fits();
  }

  /** Starting the proxy again on the file it left changes nothing. */
  lemma CopyIsIdempotent(file: seq<byte>, proxy: nat, actual: nat)
    requires proxy < DISPLAY_LIMIT && CopyAuthentication(file, proxy, actual).Some?
    ensures CopyAuthentication(CopyAuthentication(file, proxy, actual).value, proxy, actual) == CopyAuthentication(file, proxy, actual)
  {
    var es := ReadAll(file).value;
    var edited := Edit(es, proxy, actual).value;
    EditFits(es, proxy, actual);
    EntriesRoundTrip(edited);
    EditIsIdempotent(es, proxy, actual);
  }
}
