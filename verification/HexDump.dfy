/**
 The dump of a buffer: rows of an address, two groups of eight bytes in hexadecimal, and text.
 */
module HexDump {
  import opened Bytes

  const BYTES_PER_ROW: nat := 16
  const BYTES_PER_GROUP: nat := 8
  const GROUP_WIDTH: nat := 23
  const ADDRESS_WIDTH: nat := 8
  const DIGITS: string := "0123456789abcdef"

  function Digit(n: nat): char
    requires n < 16
  {
    DIGITS[n]
  }

  function DigitValue(c: char): nat {
    if '0' <= c <= '9' then (c as nat) - ('0' as nat)
    else if 'a' <= c <= 'f' then (c as nat) - ('a' as nat) + 10
    else 0
  }

  lemma DigitReads(n: nat)
    requires n < 16
    ensures DigitValue(Digit(n)) == n && Digit(n) != ' ' && Digit(n) != '\n'
  {
  }

  function HexByte(b: byte): string { [Digit(b / 16), Digit(b % 16)] }

  function HexNumber(n: nat): string {
    if n < 16 then [Digit(n)] else HexNumber(n / 16) + [Digit(n % 16)]
  }

  function HexValue(s: string): nat {
    if s == [] then 0 else 16 * HexValue(s[..|s| - 1]) + DigitValue(s[|s| - 1])
  }

  function Fill(c: char, n: nat): (s: string)
    ensures |s| == n && forall i :: 0 <= i < n ==> s[i] == c
  {
    seq(n, _ => c)
  }

  /** At least eight digits. */
  function Address(n: nat): string {
    var digits := HexNumber(n);
    if |digits| < ADDRESS_WIDTH then Fill('0', ADDRESS_WIDTH - |digits|) + digits else digits
  }

  function GroupText(g: seq<byte>): string {
    if g == [] then "" else if |g| == 1 then HexByte(g[0]) else HexByte(g[0]) + " " + GroupText(g[1..])
  }

  function Column(s: string): string {
    if |s| < GROUP_WIDTH then s + Fill(' ', GROUP_WIDTH - |s|) else s
  }

  /** isprint(3) in the C locale. */
  function Shown(b: byte): char { if 32 <= b < 127 then b as char else '.' }

  /** Each byte as its character if it is one between the space and the tilde, and as a dot otherwise. */
  predicate ShownAs(bytes: seq<byte>, text: string) {
    && |text| == |bytes|
    && forall i :: 0 <= i < |bytes| ==>
      if ' ' as int <= bytes[i] <= '~' as int then text[i] as int == bytes[i] else text[i] == '.'
  }

  function Text(s: seq<byte>): (t: string)
    ensures ShownAs(s, t)
  {
    seq(|s|, i requires 0 <= i < |s| => Shown(s[i]))
  }

  function Min(a: nat, b: nat): nat { if a < b then a else b }

  function FirstGroup(row: seq<byte>): seq<byte> { row[..Min(|row|, BYTES_PER_GROUP)] }

  function SecondGroup(row: seq<byte>): seq<byte> { row[Min(|row|, BYTES_PER_GROUP)..] }

  function Row(address: nat, row: seq<byte>): string {
    Address(address) + "  " + Column(GroupText(FirstGroup(row))) + "  " + Column(GroupText(SecondGroup(row))) + "  "
    + Text(row) + "\n"
  }

  function Dump(data: seq<byte>, address: nat): string
    decreases |data|
  {
    if data == [] then ""
    else
      var n := Min(|data|, BYTES_PER_ROW);
      Row(address, data[..n]) + Dump(data[n..], address + BYTES_PER_ROW)
  }

  // ---- the loops ----

  /** The text of a group that is being built: a space follows unless this was the last byte. */
  function Building(g: seq<byte>, more: bool): string { GroupText(g) + if g != [] && more then " " else "" }

  lemma {:induction false} GroupSnoc(g: seq<byte>, b: byte)
    ensures GroupText(g + [b]) == Building(g, true) + HexByte(b)
    decreases |g|
  {
    if |g| > 1 {
      GroupSnoc(g[1..], b);
      assert (g + [b])[1..] == g[1..] + [b];
    } else if |g| == 1 {
      assert (g + [b])[1..] == [b];
    } else {
      assert g + [b] == [b];
    }
  }

  /** One group: its bytes in hexadecimal with spaces between them, and as text. */
  method DumpGroup(data: seq<byte>) returns (group: string, asAscii: string)
    ensures group == GroupText(data) && asAscii == Text(data)
  {
    group, asAscii := "", "";
    for i := 0 to |data|
      invariant group == Building(data[..i], i < |data|)
      invariant asAscii == Text(data[..i])
    {
      GroupSnoc(data[..i], data[i]);
      assert data[..i + 1] == data[..i] + [data[i]];
      group := group + HexByte(data[i]) + (if i < |data| - 1 then " " else "");
      asAscii := asAscii + [Shown(data[i])];
    }
    assert data[..|data|] == data;
  }

  method BufferHexDump(data: seq<byte>) returns (hexDump: string)
    ensures hexDump == Dump(data, 0)
  {
    hexDump := "";
    var rest, addressIndex: nat := data, 0;
    while rest != []
      invariant Dump(data, 0) == hexDump + Dump(rest, addressIndex)
      decreases |rest|
    {
      var row := rest[..Min(|rest|, BYTES_PER_ROW)];
      var group1, ascii1 := DumpGroup(FirstGroup(row));
      var group2, ascii2 := DumpGroup(SecondGroup(row));
      var line := Address(addressIndex) + "  " + Column(group1) + "  " + Column(group2) + "  " + (ascii1 + ascii2) + "\n";
      TextOfGroups(row);
      Longer(hexDump, line, Dump(rest[|row|..], addressIndex + BYTES_PER_ROW));
      hexDump, rest, addressIndex := hexDump + line, rest[|row|..], addressIndex + BYTES_PER_ROW;
    }
  }

  lemma TextOfGroups(row: seq<byte>)
    ensures Text(row) == Text(FirstGroup(row)) + Text(SecondGroup(row))
  {
  }

  lemma Longer(a: string, b: string, c: string)
    ensures a + (b + c) == a + b + c
  {
  }

  // ---- reading a dump back ----

  function DecodeGroup(column: string): seq<byte> {
    if |column| < 2 || column[0] == ' ' then []
    else [(16 * DigitValue(column[0]) + DigitValue(column[1])) % 256] + if |column| < 3 then [] else DecodeGroup(column[3..])
  }

  /** The first position of `c`, or the end. */
  function Find(s: string, c: char): (i: nat)
    ensures i <= |s| && (forall j :: 0 <= j < i ==> s[j] != c) && (i < |s| ==> s[i] == c)
  {
    if s == [] || s[0] == c then 0 else 1 + Find(s[1..], c)
  }

  datatype Line = Line(address: nat, bytes: seq<byte>, text: string)

  /** An address of eight digits, or of more if it has them; two columns of eight bytes, 23 characters wide; and the
      text, two characters behind each of these. */
  function DecodeLine(line: string): Option<Line> {
    var a := Find(line, ' ');
    if a < 8 || (a > 8 && line[0] == '0') || |line| < a + 52 then None
    else Some(LineOf(line[..a], line[a + 2..a + 25], line[a + 27..a + 50], line[a + 52..]))
  }

  function LineOf(address: string, one: string, two: string, text: string): Line {
    Line(HexValue(address), DecodeGroup(one) + DecodeGroup(two), text)
  }

  /** The lines of a dump, each with its address and its bytes. */
  function Decode(dump: string): Option<seq<Line>>
    decreases |dump|
  {
    if dump == "" then Some([])
    else
      var end := Find(dump, '\n');
      if end == |dump| then None
      else
        var line, rest := DecodeLine(dump[..end]), Decode(dump[end + 1..]);
        if line.None? || rest.None? then None else Some([line.value] + rest.value)
  }

  /** The lines a dump should have: sixteen bytes each, but for the last, at every sixteenth address, and beside
      them those that can be shown as characters. */
  function Lines(data: seq<byte>, address: nat): (lines: seq<Line>)
    ensures |lines| == (|data| + 15) / 16
    ensures forall r: nat :: r < |lines| ==> lines[r] == LineAt(data, address, r)
    decreases |data|
  {
    if data == [] then []
    else
      var rest := Lines(data[Min(|data|, BYTES_PER_ROW)..], address + BYTES_PER_ROW);
      LinesBehind(data, address, rest);
      [LineAt(data, address, 0)] + rest
  }

  /** Line `r` of a dump. */
  function LineAt(data: seq<byte>, address: nat, r: nat): Line {
    var bytes := if 16 * r <= |data| then data[16 * r..Min(16 * (r + 1), |data|)] else [];
    Line(address + 16 * r, bytes, Text(bytes))
  }

  lemma SliceBehind(data: seq<byte>, k: nat, a: nat, b: nat)
    requires k <= |data| && a <= b <= |data| - k
    ensures data[k..][a..b] == data[k + a..k + b]
  {
  }

  lemma LineBehind(data: seq<byte>, address: nat, r: nat)
    requires 16 * (r + 1) < |data|
    ensures LineAt(data[16..], address + 16, r) == LineAt(data, address, r + 1)
  {
    SliceBehind(data, 16, 16 * r, Min(16 * (r + 1), |data| - 16));
  }

  lemma LinesBehind(data: seq<byte>, address: nat, rest: seq<Line>)
    requires data != [] && |rest| == (|data| - Min(|data|, 16) + 15) / 16
    requires forall r: nat :: r < |rest| ==> rest[r] == LineAt(data[Min(|data|, 16)..], address + 16, r)
    ensures forall r: nat :: r < |rest| ==> rest[r] == LineAt(data, address, r + 1)
  {
    forall r: nat | r < |rest| ensures rest[r] == LineAt(data, address, r + 1) {
      LineBehind(data, address, r);
    }
  }

  lemma {:induction false} NumberReads(n: nat)
    ensures HexValue(HexNumber(n)) == n && forall c <- HexNumber(n) :: c != ' ' && c != '\n'
  {
    if n < 16 {
      DigitReads(n);
      assert HexNumber(n)[..0] == "";
    } else {
      NumberReads(n / 16);
      DigitReads(n % 16);
      assert HexNumber(n)[..|HexNumber(n)| - 1] == HexNumber(n / 16);
    }
  }

  lemma {:induction false} NumberIsShort(n: nat)
    ensures HexNumber(n) != "" && (|HexNumber(n)| > 1 ==> HexNumber(n)[0] != '0')
  {
    if n >= 16 {
      NumberIsShort(n / 16);
    }
  }

  lemma {:induction false} ZerosRead(k: nat, s: string)
    ensures HexValue(Fill('0', k) + s) == HexValue(s)
    decreases |s|, k
  {
    var t := Fill('0', k) + s;
    if s != "" {
      ZerosRead(k, s[..|s| - 1]);
      assert t[..|t| - 1] == Fill('0', k) + s[..|s| - 1];
    } else if k > 0 {
      ZerosRead(k - 1, "");
      assert t[..|t| - 1] == Fill('0', k - 1) + "";
    }
  }

  lemma AddressReads(n: nat)
    ensures HexValue(Address(n)) == n && forall c <- Address(n) :: c != ' ' && c != '\n'
    ensures |Address(n)| >= 8 && (|Address(n)| > 8 ==> Address(n)[0] != '0')
  {
    NumberReads(n);
    NumberIsShort(n);
    if |HexNumber(n)| < ADDRESS_WIDTH {
      ZerosRead(ADDRESS_WIDTH - |HexNumber(n)|, HexNumber(n));
    }
  }

  lemma ByteReads(b: byte, rest: string)
    ensures DecodeGroup(HexByte(b) + rest) == [b] + if rest == "" then [] else DecodeGroup(rest[1..])
    ensures forall c <- HexByte(b) :: c != '\n'
  {
    DigitReads(b / 16);
    DigitReads(b % 16);
    assert rest != "" ==> (HexByte(b) + rest)[3..] == rest[1..];
  }

  predicate OneLine(s: string) { forall c <- s :: c != '\n' }

  lemma ByteThenSpace(b: byte, tail: string)
    ensures DecodeGroup(HexByte(b) + (" " + tail)) == [b] + DecodeGroup(tail)
  {
    ByteReads(b, " " + tail);
    assert (" " + tail)[1..] == tail;
  }

  lemma GroupCons(b: byte, g: seq<byte>, text: string, k: nat)
    requires DecodeGroup(text + Fill(' ', k)) == g
    ensures DecodeGroup(HexByte(b) + " " + text + Fill(' ', k)) == [b] + g
  {
    ByteThenSpace(b, text + Fill(' ', k));
    FourParts(HexByte(b), " ", text, Fill(' ', k));
  }

  lemma FourParts(a: string, b: string, c: string, d: string)
    ensures a + b + c + d == a + (b + (c + d))
  {
  }

  lemma GroupOne(b: byte, k: nat)
    ensures DecodeGroup(HexByte(b) + Fill(' ', k)) == [b]
  {
    ByteReads(b, Fill(' ', k));
    assert k > 0 ==> Fill(' ', k)[1..] == Fill(' ', k - 1);
  }

  lemma {:induction false} GroupReads(g: seq<byte>, k: nat)
    ensures DecodeGroup(GroupText(g) + Fill(' ', k)) == g
    decreases |g|
  {
    if |g| > 1 {
      GroupReads(g[1..], k);
      GroupCons(g[0], g[1..], GroupText(g[1..]), k);
      assert [g[0]] + g[1..] == g;
    } else if |g| == 1 {
      GroupOne(g[0], k);
    } else {
      assert GroupText(g) + Fill(' ', k) == Fill(' ', k);
    }
  }

  lemma {:induction false} GroupShape(g: seq<byte>)
    ensures |GroupText(g)| == (if g == [] then 0 else 3 * |g| - 1) && OneLine(GroupText(g))
  {
    if g != [] {
      GroupShape(g[1..]);
      ByteReads(g[0], "");
    }
  }

  lemma ColumnReads(g: seq<byte>)
    requires |g| <= BYTES_PER_GROUP
    ensures |Column(GroupText(g))| == GROUP_WIDTH && DecodeGroup(Column(GroupText(g))) == g && OneLine(Column(GroupText(g)))
  {
    GroupShape(g);
    ColumnIs(GroupText(g));
    GroupReads(g, GROUP_WIDTH - |GroupText(g)|);
  }

  lemma ColumnIs(text: string)
    requires |text| <= GROUP_WIDTH && OneLine(text)
    ensures Column(text) == text + Fill(' ', GROUP_WIDTH - |text|) && OneLine(Column(text))
  {
  }

  lemma FindFirst(s: string, c: char, rest: string)
    requires forall x <- s :: x != c
    ensures Find(s + [c] + rest, c) == |s|
  {
    var t := s + [c] + rest;
    assert t[|s|] == c && forall i :: 0 <= i < |s| ==> t[i] == s[i] && s[i] in s;
  }

  /** A row without its line end. */
  function RowText(address: nat, row: seq<byte>): string {
    Address(address) + "  " + Column(GroupText(FirstGroup(row))) + "  " + Column(GroupText(SecondGroup(row))) + "  " + Text(row)
  }

  lemma Columns(a: string, one: string, two: string, text: string)
    requires |one| == 23 && |two| == 23 && forall x <- a :: x != ' '
    ensures var line := a + "  " + one + "  " + two + "  " + text;
      && Find(line, ' ') == |a| && line[..|a|] == a && |line| == |a| + 52 + |text|
      && line[|a| + 2..|a| + 25] == one && line[|a| + 27..|a| + 50] == two && line[|a| + 52..] == text
  {
    var line := a + "  " + one + "  " + two + "  " + text;
    var rest := " " + one + "  " + two + "  " + text;
    FindFirst(a, ' ', rest);
    assert line == a + [' '] + rest;
  }

  lemma LineFrom(line: string, a: string, one: string, two: string, text: string)
    requires |a| >= 8 && (|a| > 8 ==> a[0] != '0') && Find(line, ' ') == |a| && |line| >= |a| + 52 && line[..|a|] == a
    requires line[|a| + 2..|a| + 25] == one && line[|a| + 27..|a| + 50] == two && line[|a| + 52..] == text
    ensures DecodeLine(line) == Some(LineOf(a, one, two, text))
  {
    assert line[0] == a[0];
  }

  lemma LineReads(n: nat, a: string, one: string, two: string, text: string, g: seq<byte>, g': seq<byte>)
    requires |a| >= 8 && (|a| > 8 ==> a[0] != '0')
    requires HexValue(a) == n && |one| == 23 && |two| == 23 && forall x <- a :: x != ' '
    requires DecodeGroup(one) == g && DecodeGroup(two) == g'
    ensures DecodeLine(a + "  " + one + "  " + two + "  " + text) == Some(Line(n, g + g', text))
  {
    Columns(a, one, two, text);
    LineFrom(a + "  " + one + "  " + two + "  " + text, a, one, two, text);
  }

  lemma LineIsOne(a: string, one: string, two: string, text: string)
    requires OneLine(a) && OneLine(one) && OneLine(two) && OneLine(text)
    ensures OneLine(a + "  " + one + "  " + two + "  " + text)
  {
  }

  lemma TextIsOneLine(s: seq<byte>)
    ensures OneLine(Text(s))
  {
  }

  lemma RowIsOneLine(address: nat, row: seq<byte>)
    requires |row| <= BYTES_PER_ROW
    ensures OneLine(RowText(address, row))
  {
    AddressReads(address);
    GroupsFit(row);
    ColumnReads(FirstGroup(row));
    ColumnReads(SecondGroup(row));
    TextIsOneLine(row);
    LineIsOne(Address(address), Column(GroupText(FirstGroup(row))), Column(GroupText(SecondGroup(row))), Text(row));
  }

  lemma GroupsFit(row: seq<byte>)
    requires |row| <= BYTES_PER_ROW
    ensures |FirstGroup(row)| <= BYTES_PER_GROUP && |SecondGroup(row)| <= BYTES_PER_GROUP
    ensures FirstGroup(row) + SecondGroup(row) == row
  {
  }

  lemma RowReads(address: nat, row: seq<byte>)
    requires |row| <= BYTES_PER_ROW
    ensures DecodeLine(RowText(address, row)) == Some(Line(address, row, Text(row)))
  {
    AddressReads(address);
    GroupsFit(row);
    ColumnReads(FirstGroup(row));
    ColumnReads(SecondGroup(row));
    LineReads(address, Address(address), Column(GroupText(FirstGroup(row))), Column(GroupText(SecondGroup(row))), Text(row),
              FirstGroup(row), SecondGroup(row));
  }

  /** A line that is decoded, and what follows its end. */
  lemma LineThen(line: string, rest: string)
    requires OneLine(line) && DecodeLine(line).Some? && Decode(rest).Some?
    ensures Decode(line + ['\n'] + rest) == Some([DecodeLine(line).value] + Decode(rest).value)
  {
    var dump := line + ['\n'] + rest;
    FindFirst(line, '\n', rest);
    assert dump[..|line|] == line && dump[|line| + 1..] == rest;
  }

  lemma RowThen(address: nat, row: seq<byte>, rest: string)
    ensures Row(address, row) + rest == RowText(address, row) + ['\n'] + rest
  {
  }

  /** Reading the address and the hexadecimal columns of a dump back, line by line, gives the original
      bytes: one line for every sixteen bytes begun, line `r` at address 16 * r. */
  lemma {:induction false} DumpRoundTrip(data: seq<byte>, address: nat)
    ensures Decode(Dump(data, address)) == Some(Lines(data, address))
    decreases |data|
  {
    if data != [] {
      var n := Min(|data|, BYTES_PER_ROW);
      var rest := Dump(data[n..], address + BYTES_PER_ROW);
      DumpRoundTrip(data[n..], address + BYTES_PER_ROW);
      RowReads(address, data[..n]);
      RowIsOneLine(address, data[..n]);
      LineThen(RowText(address, data[..n]), rest);
      RowThen(address, data[..n], rest);
    }
  }
}
