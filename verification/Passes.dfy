/**
 What one pass over a buffer does: which bytes it takes, which messages it finds, and what it leaves.
 */
module Passes {
  import opened Bytes
  import opened SocketBuffers
  import opened Wire
  import opened Tracking
  import opened MessageLoops

  function Msgs(log: seq<Entry>): (r: seq<seq<byte>>)
    ensures |r| == |log|
  {
    seq(|log|, i requires 0 <= i < |log| => log[i].msg)
  }

  function Outs(log: seq<Entry>): (r: seq<seq<byte>>)
    ensures |r| == |log|
  {
    seq(|log|, i requires 0 <= i < |log| => log[i].out)
  }

  /** Every message is nonempty and leaves with the length it came with. */
  predicate Sized(log: seq<Entry>) {
    forall i :: 0 <= i < |log| ==> |log[i].out| == |log[i].msg| > 0
  }

  /** The loop's data pointer is at the first byte that is not parsed. */
  predicate Aligned(b: Buffer, cur: nat) { cur == b.written + b.parsed }

  // ---- bytes ----

  /** A pass over aligned bytes: the pending bytes are the logged messages and the new pending bytes;
      the messages are parsed in place, each as it goes out. */
  predicate Splits(b: Buffer, r: Passed)
    requires b.Valid()
  {
    && r.b.Valid() && r.b.written == b.written && r.b.read == b.read && |r.b.store| == |b.store|
    && Sized(r.log)
    && b.Pending() == Flatten(Msgs(r.log)) + r.b.Pending()
    && r.b.Data()[..r.b.parsed] == b.Data()[..b.parsed] + Flatten(Outs(r.log))
  }

  lemma AdvanceSplits(rules: Rules, p: Parser, c: Conn, b: Buffer, cur: nat)
    requires b.Valid() && Aligned(b, cur) && b.next.Some? && b.next.value <= b.Unparsed()
    requires Advance(rules, p, c, b, cur).Some?
    ensures Splits(b, Advance(rules, p, c, b, cur).value)
  {
    var r := Advance(rules, p, c, b, cur).value;
    var m, out := r.log[0].msg, r.log[0].out;
    assert Msgs(r.log) == [m] && Outs(r.log) == [out];
    FlattenOne(m);
    FlattenOne(out);
    PatchedPending(b, out);
  }

  lemma TakeOfSlice(s: seq<byte>, i: nat, j: nat, k: nat)
    requires i + k <= j <= |s|
    ensures s[i..j][..k] == s[i..i + k]
  {
  }

  lemma PatchedPending(b: Buffer, out: seq<byte>)
    requires b.Valid() && |out| <= b.Unparsed()
    ensures var at, n := b.written + b.parsed, |out|;
      var s := Patched(b.store, at, out);
      && b.Pending() == b.store[at..at + n] + s[at + n..b.read]
      && s[b.written..at + n] == b.Data()[..b.parsed] + out
  {
    var at, n := b.written + b.parsed, |out|;
    var s := Patched(b.store, at, out);
    assert s[at + n..b.read] == b.store[at + n..b.read];
    assert b.Pending() == b.store[at..at + n] + b.store[at + n..b.read];
    TakeOfSlice(b.store, b.written, b.read, b.parsed);
    assert s[b.written..at + n] == b.store[b.written..at] + out;
  }

  lemma LogAppends(a: seq<Entry>, b: seq<Entry>)
    ensures Flatten(Msgs(a + b)) == Flatten(Msgs(a)) + Flatten(Msgs(b))
    ensures Flatten(Outs(a + b)) == Flatten(Outs(a)) + Flatten(Outs(b))
  {
    assert Msgs(a + b) == Msgs(a) + Msgs(b) && Outs(a + b) == Outs(a) + Outs(b);
    FlattenAppend(Msgs(a), Msgs(b));
    FlattenAppend(Outs(a), Outs(b));
  }

  lemma SplitsJoin(b: Buffer, r: Passed, r': Passed)
    requires b.Valid() && Splits(b, r) && Splits(r.b, r')
    ensures Splits(b, r'.(log := r.log + r'.log))
  {
    LogAppends(r.log, r'.log);
    assert b.Pending() == Flatten(Msgs(r.log)) + Flatten(Msgs(r'.log)) + r'.b.Pending();
    assert r'.b.Data()[..r'.b.parsed] == b.Data()[..b.parsed] + (Flatten(Outs(r.log)) + Flatten(Outs(r'.log)));
  }

  lemma SplitsNothing(b: Buffer, r: Passed)
    requires b.Valid() && r.log == [] && r.b == b.(next := r.b.next)
    ensures Splits(b, r)
  {
    assert Flatten(Msgs([])) == [] && Flatten(Outs([])) == [];
  }

  /** A handler that never edits. */
  ghost predicate Plain(rules: Rules) {
    forall p, c, m, at :: rules.handle(p, c, m, at).Some? ==> rules.handle(p, c, m, at).value.out == m
  }

  /** Without edits a pass leaves every byte where it is, wherever its data pointer starts. */
  lemma {:induction false} PassLeavesBytes(rules: Rules, p: Parser, c: Conn, b: Buffer, cur: nat)
    requires b.Valid() && cur <= b.written + b.parsed && Pass(rules, p, c, b, cur).Some? && Plain(rules)
    ensures var r := Pass(rules, p, c, b, cur).value;
      r.b == b.(parsed := r.b.parsed, next := r.b.next) && b.parsed <= r.b.parsed && r.b.Valid()
    decreases b.Unparsed()
  {
    if b.Unparsed() > 0 {
      var size := Measure(rules, p, c, b, cur).value;
      var b' := b.(next := size.next);
      if !b'.Incomplete() {
        var step := Advance(rules, p, size.c, b', cur).value;
        PlainAdvance(rules, p, size.c, b', cur);
        PassLeavesBytes(rules, step.p, step.c, step.b, cur + b'.next.value);
      }
    }
  }

  lemma PlainAdvance(rules: Rules, p: Parser, c: Conn, b: Buffer, cur: nat)
    requires b.Valid() && cur <= b.written + b.parsed && b.next.Some? && b.next.value <= b.Unparsed() && Plain(rules)
    requires Advance(rules, p, c, b, cur).Some?
    ensures var r := Advance(rules, p, c, b, cur).value; var m := b.store[cur..cur + b.next.value];
      r.b == Marked(b) && r.log == [Entry(m, m, cur)]
  {
    assert Patched(b.store, cur, b.store[cur..cur + b.next.value]) == b.store;
  }

  /** ... and the messages it logs are in the buffer one behind the other, from the data pointer on. */
  predicate Takes(b: Buffer, cur: nat, parsed: nat, bytes: seq<byte>) {
    cur + |bytes| <= |b.store| && parsed == b.parsed + |bytes| && bytes == b.store[cur..cur + |bytes|]
  }

  function Joined(log: seq<Entry>): seq<byte> { if log == [] then [] else log[0].msg + Joined(log[1..]) }

  /** Each entry is where the one before it ends, the first at `cur`. */
  predicate Adjacent(log: seq<Entry>, cur: nat) {
    log != [] ==> log[0].at == cur && Adjacent(log[1..], cur + |log[0].msg|)
  }

  lemma {:induction false} JoinedIsFlat(log: seq<Entry>)
    ensures Joined(log) == Flatten(Msgs(log))
  {
    if log != [] {
      JoinedIsFlat(log[1..]);
      assert Msgs(log)[1..] == Msgs(log[1..]);
    }
  }

  lemma PlainTurn(rules: Rules, p: Parser, c: Conn, b: Buffer, cur: nat)
    requires b.Valid() && cur <= b.written + b.parsed && b.Unparsed() > 0 && Plain(rules)
    requires NextTurn(rules, p, c, b, cur).Some?
    ensures var t := NextTurn(rules, p, c, b, cur).value;
      && t.b.store == b.store
      && (t.logged.Some? ==> t.logged.value.at == cur && Contains(b.store, cur, t.logged.value.msg))
  {
    var size := Measure(rules, p, c, b, cur).value;
    var b' := b.(next := size.next);
    if !b'.Incomplete() {
      PlainAdvance(rules, p, size.c, b', cur);
    }
  }

  lemma TakesMore(b: Buffer, b': Buffer, cur: nat, m: seq<byte>, parsed: nat, bytes: seq<byte>)
    requires b'.store == b.store && b'.parsed == b.parsed + |m|
    requires Contains(b.store, cur, m) && Takes(b', cur + |m|, parsed, bytes)
    ensures Takes(b, cur, parsed, m + bytes)
  {
    var n := |bytes|;
    assert b.store[cur..cur + |m| + n] == b.store[cur..cur + |m|] + b.store[cur + |m|..cur + |m| + n];
  }

  // ---- where a pass stops ----

  /** Between two events: nothing is half sent, and what is not parsed is less than a message, or less
      than the longest header, so that it is too short to tell. */
  predicate Settled(b: Buffer, header: nat) {
    && b.Valid() && b.written == 0 && |b.store| > 0
    && if b.Unparsed() == 0 then b.next.None?
       else b.Incomplete() && (b.next.None? ==> b.Size() < header)
  }

  /** Only a buffer shorter than a header leaves the size open. */
  ghost predicate Decisive(rules: Rules, header: nat) {
    forall p, c, b: Buffer, cur | b.Valid() && rules.measure(p, c, b, cur).Some? ::
      rules.measure(p, c, b, cur).value.next.None? ==> b.Size() < header
  }

  lemma SettlingTurn(rules: Rules, header: nat, p: Parser, c: Conn, b: Buffer, cur: nat)
    requires b.Valid() && cur <= b.parsed && b.written == 0 && |b.store| > 0 && Decisive(rules, header) && b.Unparsed() > 0
    requires NextTurn(rules, p, c, b, cur).Some?
    ensures var t := NextTurn(rules, p, c, b, cur).value;
      && (t.logged.None? ==> Settled(t.b, header))
      && (t.logged.Some? ==>
            && t.b.Valid() && cur + |t.logged.value.msg| <= t.b.parsed
            && t.b.written == 0 && |t.b.store| > 0 && t.b.next.None?)
  {
    var size := Measure(rules, p, c, b, cur).value;
    var b' := b.(next := size.next);
    if !b'.Incomplete() {
      var step := Advance(rules, p, size.c, b', cur).value;
      assert step.b == Marked(b'.(store := step.b.store)) && |step.b.store| == |b.store|;
    }
  }

  // ---- what every step of a pass keeps ----

  type State = (Parser, Conn) -> bool

  /** Measuring and logging keep `inv`, and every logged message is `good`. */
  ghost predicate Preserves(rules: Rules, inv: State, good: Entry -> bool) {
    && (forall p, c, b, cur | inv(p, c) :: rules.measure(p, c, b, cur).Some? ==> inv(p, rules.measure(p, c, b, cur).value.c))
    && forall p, c, m, at | inv(p, c) && rules.handle(p, c, m, at).Some? ::
         var l := rules.handle(p, c, m, at).value; inv(l.p, l.c) && good(Entry(m, l.out, at))
  }

  /** An invariant of the single steps holds after the pass, and of everything it logs. */
  lemma {:induction false} PassPreserves(
    rules: Rules, inv: State, good: Entry -> bool, p: Parser, c: Conn, b: Buffer, cur: nat)
    requires b.Valid() && cur <= b.written + b.parsed && Preserves(rules, inv, good) && inv(p, c)
    requires Pass(rules, p, c, b, cur).Some?
    ensures var r := Pass(rules, p, c, b, cur).value; inv(r.p, r.c) && forall e <- r.log :: good(e)
    decreases b.Unparsed()
  {
    if b.Unparsed() > 0 {
      var size := Measure(rules, p, c, b, cur).value;
      var b' := b.(next := size.next);
      if !b'.Incomplete() {
        var step := Advance(rules, p, size.c, b', cur).value;
        PassPreserves(rules, inv, good, step.p, step.c, step.b, cur + b'.next.value);
      }
    }
  }

  /** Where measuring waits, the pending bytes are `done`. */
  ghost predicate WaitsOnly(rules: Rules, inv: State, done: seq<byte> -> bool) {
    && done([])
    && forall p, c, b: Buffer, cur | inv(p, c) && b.Valid() && Aligned(b, cur) && Waits(rules, p, c, b, cur) :: done(b.Pending())
  }

  predicate Waits(rules: Rules, p: Parser, c: Conn, b: Buffer, cur: nat)
    requires b.Valid()
  {
    && b.next.None? && rules.measure(p, c, b, cur).Some?
    && b.(next := rules.measure(p, c, b, cur).value.next).Incomplete()
  }

  // ---- a pass as the messages it logs ----

  /** Logging messages one after another. */
  function Logs(rules: Rules, p: Parser, c: Conn, log: seq<Entry>): Option<(Parser, Conn)>
    decreases |log|
  {
    if log == [] then Some((p, c))
    else
      var l := rules.handle(p, c, log[0].msg, log[0].at);
      if l.None? || l.value.out != log[0].out then None
      else Logs(rules, l.value.p, l.value.c, log[1..])
  }

  /** Measuring leaves an open connection alone, and logging leaves it open. */
  ghost predicate Quiet(rules: Rules) {
    && (forall p, c: Conn, b, cur | c.status.Open? && rules.measure(p, c, b, cur).Some? :: rules.measure(p, c, b, cur).value.c == c)
    && forall p, c: Conn, m, at | c.status.Open? && rules.handle(p, c, m, at).Some? :: rules.handle(p, c, m, at).value.c.status.Open?
  }

  lemma {:induction false} PassLogs(rules: Rules, p: Parser, c: Conn, b: Buffer, cur: nat)
    requires b.Valid() && cur <= b.written + b.parsed && c.status.Open? && Quiet(rules)
    requires Pass(rules, p, c, b, cur).Some?
    ensures var r := Pass(rules, p, c, b, cur).value; Logs(rules, p, c, r.log) == Some((r.p, r.c))
    decreases b.Unparsed()
  {
    if b.Unparsed() > 0 {
      var size := Measure(rules, p, c, b, cur).value;
      var b' := b.(next := size.next);
      if !b'.Incomplete() {
        var step := Advance(rules, p, size.c, b', cur).value;
        var rest := Pass(rules, step.p, step.c, step.b, cur + b'.next.value).value;
        PassLogs(rules, step.p, step.c, step.b, cur + b'.next.value);
        assert (step.log + rest.log)[1..] == rest.log;
      }
    }
  }

  /** The size that the buffer is left with was measured at `cur`. */
  predicate LastMeasured(rules: Rules, p: Parser, c: Conn, b: Buffer, cur: nat) {
    rules.measure(p, c, b.(next := None), cur) == Some(Measured(c, b.next))
  }

  /** A pass from `cur` that leaves something unparsed waits under the size it has measured last. */
  predicate Ends(rules: Rules, b: Buffer, cur: nat, r: Passed) {
    && r.b.Valid() && b.parsed <= r.b.parsed
    && (r.b.Unparsed() > 0 && (r.log != [] || b.next.None?) ==>
          r.b.Incomplete() && LastMeasured(rules, r.p, r.c, r.b, cur + (r.b.parsed - b.parsed)))
  }

  lemma EndsLater(rules: Rules, b: Buffer, b': Buffer, cur: nat, n: nat, r: Passed, rest: Passed)
    requires b'.next.None? && b'.parsed == b.parsed + n && Ends(rules, b', cur + n, rest) && r == rest.(log := r.log)
    ensures Ends(rules, b, cur, r)
  {
  }

  /** A turn of an open connection waits under the size it has measured, or leaves no size. */
  lemma QuietTurn(rules: Rules, p: Parser, c: Conn, b: Buffer, cur: nat)
    requires b.Valid() && cur <= b.written + b.parsed && b.Unparsed() > 0 && c.status.Open? && Quiet(rules)
    requires NextTurn(rules, p, c, b, cur).Some?
    ensures var t := NextTurn(rules, p, c, b, cur).value;
      && t.c.status.Open?
      && (t.logged.Some? ==> t.b.next.None?)
      && (t.logged.None? ==> t.b.Valid() && t.b.Incomplete() && (b.next.None? ==> LastMeasured(rules, t.p, t.c, t.b, cur)))
  {
    var size := Measure(rules, p, c, b, cur).value;
    var b' := b.(next := size.next);
    if b'.Incomplete() {
      assert b.next.None? ==> b'.(next := None) == b;
    }
  }

  lemma {:induction false} EndsFrom(
    rules: Rules, loop: Loop, log: seq<Entry>, p: Parser, c: Conn, b: Buffer, cur: nat, r: Passed)
    requires LoopOf(rules, loop) && Quiet(rules) && b.Valid() && cur <= b.written + b.parsed && c.status.Open?
    requires loop(log, p, c, b, cur) == Some(r)
    ensures log <= r.log && Ends(rules, b, cur, r.(log := r.log[|log|..]))
    decreases b.Unparsed()
  {
    if b.Unparsed() == 0 {
      LoopEnds(rules, loop, log, p, c, b, cur);
    } else {
      LoopTurns(rules, loop, log, p, c, b, cur);
      QuietTurn(rules, p, c, b, cur);
      var t := NextTurn(rules, p, c, b, cur).value;
      if t.logged.Some? {
        var e := t.logged.value;
        var n := |e.msg|;
        EndsFrom(rules, loop, log + [e], t.p, t.c, t.b, cur + n, r);
        BehindFirst(log, e, r.log);
        EndsLater(rules, b, t.b, cur, n, r.(log := r.log[|log|..]), r.(log := r.log[|log + [e]|..]));
      }
    }
  }

  lemma PassEnds(rules: Rules, p: Parser, c: Conn, b: Buffer, cur: nat)
    requires b.Valid() && cur <= b.written + b.parsed && c.status.Open? && Quiet(rules)
    requires Pass(rules, p, c, b, cur).Some?
    ensures Ends(rules, b, cur, Pass(rules, p, c, b, cur).value)
  {
    var loop: Loop := (log, p, c, b, cur: nat) => GoingOn(rules, log, p, c, b, cur);
    var r := Pass(rules, p, c, b, cur).value;
    LoopStarts(rules, loop, p, c, b, cur);
    EndsFrom(rules, loop, [], p, c, b, cur, r);
    assert r.(log := r.log[0..]) == r;
  }

  /** A pass that waits at once logs nothing. */
  lemma PassWaits(rules: Rules, p: Parser, c: Conn, b: Buffer, cur: nat)
    requires b.Valid() && cur <= b.written + b.parsed && b.next.Some? && b.Incomplete()
    ensures Pass(rules, p, c, b, cur) == Some(Passed(p, c, b, []))
  {
  }

  /** A pass that logs something is its first message and the pass after it. */
  lemma PassFirst(rules: Rules, p: Parser, c: Conn, b: Buffer, cur: nat) returns (c': Conn, step: Passed)
    requires b.Valid() && Aligned(b, cur) && Pass(rules, p, c, b, cur).Some?
    requires Pass(rules, p, c, b, cur).value.log != []
    ensures Measure(rules, p, c, b, cur).Some? && Measure(rules, p, c, b, cur).value.c == c'
    ensures var r := Pass(rules, p, c, b, cur).value; var e := r.log[0];
      && rules.handle(p, c', e.msg, e.at) == Some(Logged(step.p, step.c, e.out))
      && step.log == [e]
      && step.b.Valid() && step.b.next.None?
      && var next := step.b.written + step.b.parsed;
        Pass(rules, step.p, step.c, step.b, next) == Some(r.(log := r.log[1..]))
  {
    var size := Measure(rules, p, c, b, cur).value;
    var b' := b.(next := size.next);
    c', step := size.c, Advance(rules, p, size.c, b', cur).value;
    var rest := Pass(rules, step.p, step.c, step.b, cur + b'.next.value).value;
    assert ([step.log[0]] + rest.log)[1..] == rest.log;
  }

  /** A pass that logs nothing has only measured. */
  lemma PassNothing(rules: Rules, p: Parser, c: Conn, b: Buffer, cur: nat)
    requires b.Valid() && cur <= b.written + b.parsed && b.Unparsed() > 0
    requires Pass(rules, p, c, b, cur).Some? && Pass(rules, p, c, b, cur).value.log == []
    ensures Measure(rules, p, c, b, cur).Some?
    ensures var r := Pass(rules, p, c, b, cur).value; var size := Measure(rules, p, c, b, cur).value;
      r == Passed(p, size.c, b.(next := size.next), []) && r.b.Incomplete()
  {
  }

  /** A whole message of a remembered size is logged. */
  lemma WholeIsLogged(rules: Rules, p: Parser, c: Conn, b: Buffer, cur: nat)
    requires b.Valid() && cur <= b.written + b.parsed && b.next.Some? && !b.Incomplete() && b.Unparsed() > 0
    requires Pass(rules, p, c, b, cur).Some?
    ensures rules.handle(p, c, b.store[cur..cur + b.next.value], cur).Some?
  {
    assert b.(next := b.next) == b;
  }

  lemma JoinTwice(a: seq<Entry>, b: seq<Entry>, r: Option<Passed>)
    ensures Join([], r) == r && Join(a, Join(b, r)) == Join(a + b, r)
  {
    if r.Some? {
      assert [] + r.value.log == r.value.log;
      assert a + (b + r.value.log) == a + b + r.value.log;
    }
  }

  /** The loop is its next turn, and the loop after it. */
  lemma PassTurns(rules: Rules, p: Parser, c: Conn, b: Buffer, cur: nat)
    requires b.Valid() && cur <= b.written + b.parsed && b.Unparsed() > 0
    ensures var r, t := Pass(rules, p, c, b, cur), NextTurn(rules, p, c, b, cur);
      if t.None? then r.None?
      else if t.value.logged.None? then r == Some(Passed(t.value.p, t.value.c, t.value.b, []))
      else
        var e, next := t.value.logged.value, cur + |t.value.logged.value.msg|;
        && t.value.b.Valid() && next <= t.value.b.written + t.value.b.parsed
        && |e.msg| > 0 && t.value.b.parsed == b.parsed + |e.msg|
        && t.value.b.written == b.written && t.value.b.read == b.read
        && r == Join([e], Pass(rules, t.value.p, t.value.c, t.value.b, next))
  {
  }

  /** What has been logged so far, and the loop from here. */
  function GoingOn(rules: Rules, log: seq<Entry>, p: Parser, c: Conn, b: Buffer, cur: nat): Option<Passed> {
    if b.Valid() && cur <= b.written + b.parsed then Join(log, Pass(rules, p, c, b, cur)) else None
  }

  type Loop = (seq<Entry>, Parser, Conn, Buffer, nat) -> Option<Passed>

  /** `loop` stands for `GoingOn`, without showing what that is. */
  ghost predicate LoopOf(rules: Rules, loop: Loop) {
    forall log, p, c, b, cur {:trigger GoingOn(rules, log, p, c, b, cur)} ::
      loop(log, p, c, b, cur) == GoingOn(rules, log, p, c, b, cur)
  }

  lemma LoopStarts(rules: Rules, loop: Loop, p: Parser, c: Conn, b: Buffer, cur: nat)
    requires LoopOf(rules, loop) && b.Valid() && cur <= b.written + b.parsed
    ensures loop([], p, c, b, cur) == Pass(rules, p, c, b, cur)
  {
    assert loop([], p, c, b, cur) == GoingOn(rules, [], p, c, b, cur);
    JoinTwice([], [], Pass(rules, p, c, b, cur));
  }

  lemma LoopTurns(rules: Rules, loop: Loop, log: seq<Entry>, p: Parser, c: Conn, b: Buffer, cur: nat)
    requires LoopOf(rules, loop) && b.Valid() && cur <= b.written + b.parsed && b.Unparsed() > 0
    ensures var r, t := loop(log, p, c, b, cur), NextTurn(rules, p, c, b, cur);
      if t.None? then r.None?
      else if t.value.logged.None? then r == Some(Passed(t.value.p, t.value.c, t.value.b, log)) && t.value.b.parsed == b.parsed
      else
        var e := t.value.logged.value;
        && r == loop(log + [e], t.value.p, t.value.c, t.value.b, cur + |e.msg|)
        && t.value.b.Valid() && |e.msg| > 0 && t.value.b.parsed == b.parsed + |e.msg|
        && t.value.b.written == b.written && t.value.b.read == b.read
  {
    PassTurns(rules, p, c, b, cur);
    assert loop(log, p, c, b, cur) == GoingOn(rules, log, p, c, b, cur);
    var t := NextTurn(rules, p, c, b, cur);
    if t.Some? {
      if t.value.logged.None? {
        assert log + [] == log;
      } else {
        var e := t.value.logged.value;
        var next := cur + |e.msg|;
        JoinTwice(log, [e], Pass(rules, t.value.p, t.value.c, t.value.b, next));
        assert loop(log + [e], t.value.p, t.value.c, t.value.b, next) == GoingOn(rules, log + [e], t.value.p, t.value.c, t.value.b, next);
      }
    }
  }

  lemma LoopEnds(rules: Rules, loop: Loop, log: seq<Entry>, p: Parser, c: Conn, b: Buffer, cur: nat)
    requires LoopOf(rules, loop) && b.Valid() && cur <= b.written + b.parsed && b.Unparsed() == 0
    ensures loop(log, p, c, b, cur) == Some(Passed(p, c, b, log))
  {
    assert loop(log, p, c, b, cur) == GoingOn(rules, log, p, c, b, cur);
    assert log + [] == log;
  }

  /** The next message, and what comes behind it. */
  lemma BehindFirst(log: seq<Entry>, e: Entry, whole: seq<Entry>)
    requires log + [e] <= whole
    ensures log <= whole && whole[|log|..] == [e] + whole[|log| + 1..]
    ensures Joined(whole[|log|..]) == e.msg + Joined(whole[|log| + 1..])
    ensures forall cur: nat {:trigger Adjacent(whole[|log|..], cur)} ::
      Adjacent(whole[|log|..], cur) <==> e.at == cur && Adjacent(whole[|log| + 1..], cur + |e.msg|)
  {
    assert whole[|log|] == e;
    assert whole[|log|..][1..] == whole[|log| + 1..];
  }

  lemma {:induction false} TakesFrom(
    rules: Rules, loop: Loop, log: seq<Entry>, p: Parser, c: Conn, b: Buffer, cur: nat, r: Passed)
    requires LoopOf(rules, loop) && Plain(rules) && b.Valid() && cur <= b.written + b.parsed
    requires loop(log, p, c, b, cur) == Some(r)
    ensures log <= r.log && Takes(b, cur, r.b.parsed, Joined(r.log[|log|..]))
    ensures Adjacent(r.log[|log|..], cur) && forall e <- r.log[|log|..] :: Contains(b.store, e.at, e.msg)
    decreases b.Unparsed()
  {
    if b.Unparsed() == 0 {
      LoopEnds(rules, loop, log, p, c, b, cur);
    } else {
      LoopTurns(rules, loop, log, p, c, b, cur);
      PlainTurn(rules, p, c, b, cur);
      var t := NextTurn(rules, p, c, b, cur).value;
      if t.logged.Some? {
        var e := t.logged.value;
        TakesFrom(rules, loop, log + [e], t.p, t.c, t.b, cur + |e.msg|, r);
        BehindFirst(log, e, r.log);
        TakesMore(b, t.b, cur, e.msg, r.b.parsed, Joined(r.log[|log| + 1..]));
      }
    }
  }

  /** Without edits, the messages a pass logs are in the buffer one behind the other, each at its place. */
  lemma PassTakes(rules: Rules, p: Parser, c: Conn, b: Buffer, cur: nat)
    requires b.Valid() && cur <= b.written + b.parsed && Pass(rules, p, c, b, cur).Some? && Plain(rules)
    ensures var r := Pass(rules, p, c, b, cur).value;
      && Takes(b, cur, r.b.parsed, Flatten(Msgs(r.log)))
      && Adjacent(r.log, cur) && forall e <- r.log :: Contains(b.store, e.at, e.msg)
  {
    var loop: Loop := (log, p, c, b, cur: nat) => GoingOn(rules, log, p, c, b, cur);
    var r := Pass(rules, p, c, b, cur).value;
    LoopStarts(rules, loop, p, c, b, cur);
    TakesFrom(rules, loop, [], p, c, b, cur, r);
    assert r.log[0..] == r.log;
    JoinedIsFlat(r.log);
  }

  /** One turn keeps what every step keeps. */
  lemma TurnPreserves(rules: Rules, inv: State, good: Entry -> bool, p: Parser, c: Conn, b: Buffer, cur: nat)
    requires b.Valid() && cur <= b.written + b.parsed && Preserves(rules, inv, good) && inv(p, c)
    requires NextTurn(rules, p, c, b, cur).Some?
    ensures var t := NextTurn(rules, p, c, b, cur).value; inv(t.p, t.c) && (t.logged.Some? ==> good(t.logged.value))
  {
  }

  /** Without edits a turn that logs takes the message off the front of what is pending. */
  lemma PlainTakes(rules: Rules, p: Parser, c: Conn, b: Buffer, cur: nat)
    requires b.Valid() && Aligned(b, cur) && Plain(rules)
    requires NextTurn(rules, p, c, b, cur).Some? && NextTurn(rules, p, c, b, cur).value.logged.Some?
    ensures var t := NextTurn(rules, p, c, b, cur).value; var m := t.logged.value.msg; var n := |m|;
      && 0 < n <= b.Unparsed() && m == b.Pending()[..n] && t.b == b.(parsed := b.parsed + n, next := None)
      && t.b.Valid() && t.b.Pending() == b.Pending()[n..]
  {
    var size := Measure(rules, p, c, b, cur).value;
    var b' := b.(next := size.next);
    PlainAdvance(rules, p, size.c, b', cur);
    var n := b'.next.value;
    assert b.store[cur..cur + n] == b.Pending()[..n] && b.store[cur + n..b.read] == b.Pending()[n..];
  }

  /** Every size that is measured is at least `n`. */
  ghost predicate MeasuresAtLeast(rules: Rules, inv: State, n: nat) {
    forall p, c, b, cur | inv(p, c) && rules.measure(p, c, b, cur).Some? ::
      rules.measure(p, c, b, cur).value.next.Some? ==> rules.measure(p, c, b, cur).value.next.value >= n
  }

  lemma TurnMeasures(rules: Rules, inv: State, n: nat, p: Parser, c: Conn, b: Buffer, cur: nat)
    requires b.Valid() && cur <= b.written + b.parsed && inv(p, c) && MeasuresAtLeast(rules, inv, n)
    requires (b.next.Some? ==> b.next.value >= n) && NextTurn(rules, p, c, b, cur).Some?
    ensures var next := NextTurn(rules, p, c, b, cur).value.b.next; next.Some? ==> next.value >= n
  {
  }

  // ---- induction over the turns of a pass ----

  type AtTurn = (Parser, Conn, Buffer, nat) -> bool
  type AtEnd = (Parser, Conn, Buffer) -> bool

  /** From here the loop ends where `end` holds, or turns to where `at` does. */
  predicate TurnsTo(rules: Rules, at: AtTurn, end: AtEnd, p: Parser, c: Conn, b: Buffer, cur: nat) {
    && b.Valid() && cur <= b.written + b.parsed
    && (b.Unparsed() == 0 ==> end(p, c, b))
    && (b.Unparsed() > 0 && NextTurn(rules, p, c, b, cur).Some? ==>
          var t := NextTurn(rules, p, c, b, cur).value;
          if t.logged.None? then end(t.p, t.c, t.b) else at(t.p, t.c, t.b, cur + |t.logged.value.msg|))
  }

  ghost predicate EveryTurn(rules: Rules, at: AtTurn, end: AtEnd) {
    forall p, c, b: Buffer, cur: nat {:trigger at(p, c, b, cur)} | at(p, c, b, cur) :: TurnsTo(rules, at, end, p, c, b, cur)
  }

  lemma {:induction false} LoopReaches(
    rules: Rules, loop: Loop, at: AtTurn, end: AtEnd, log: seq<Entry>, p: Parser, c: Conn, b: Buffer, cur: nat, r: Passed)
    requires LoopOf(rules, loop) && loop(log, p, c, b, cur) == Some(r)
    requires EveryTurn(rules, at, end) && at(p, c, b, cur) && b.Valid()
    ensures end(r.p, r.c, r.b)
    decreases b.Unparsed()
  {
    assert TurnsTo(rules, at, end, p, c, b, cur);
    if b.Unparsed() == 0 {
      LoopEnds(rules, loop, log, p, c, b, cur);
    } else {
      LoopTurns(rules, loop, log, p, c, b, cur);
      var t := NextTurn(rules, p, c, b, cur).value;
      if t.logged.Some? {
        LoopReaches(rules, loop, at, end, log + [t.logged.value], t.p, t.c, t.b, cur + |t.logged.value.msg|, r);
      }
    }
  }

  lemma PassReaches(rules: Rules, at: AtTurn, end: AtEnd, p: Parser, c: Conn, b: Buffer, cur: nat, r: Passed)
    requires EveryTurn(rules, at, end) && at(p, c, b, cur) && b.Valid() && cur <= b.written + b.parsed
    requires Pass(rules, p, c, b, cur) == Some(r)
    ensures end(r.p, r.c, r.b)
  {
    var loop: Loop := (log, p, c, b, cur: nat) => GoingOn(rules, log, p, c, b, cur);
    LoopStarts(rules, loop, p, c, b, cur);
    LoopReaches(rules, loop, at, end, [], p, c, b, cur, r);
  }

  predicate Settling(b: Buffer, cur: nat) {
    b.Valid() && cur <= b.parsed && b.written == 0 && |b.store| > 0 && (b.Unparsed() == 0 ==> b.next.None?)
  }

  lemma PassSettles(rules: Rules, header: nat, p: Parser, c: Conn, b: Buffer, cur: nat)
    requires Settling(b, cur) && Decisive(rules, header)
    requires Pass(rules, p, c, b, cur).Some?
    ensures Settled(Pass(rules, p, c, b, cur).value.b, header)
  {
    var at: AtTurn := (p, c, b, cur: nat) => Settling(b, cur);
    var end: AtEnd := (p, c, b) => Settled(b, header);
    forall p, c, b: Buffer, cur: nat | Settling(b, cur) ensures TurnsTo(rules, at, end, p, c, b, cur) {
      if b.Unparsed() > 0 && NextTurn(rules, p, c, b, cur).Some? {
        SettlingTurn(rules, header, p, c, b, cur);
      }
    }
    PassReaches(rules, at, end, p, c, b, cur, Pass(rules, p, c, b, cur).value);
  }

  /** What a pass has before it that stops where measuring waits. */
  predicate Stopping(inv: State, done: seq<byte> -> bool, p: Parser, c: Conn, b: Buffer, cur: nat) {
    b.Valid() && Aligned(b, cur) && inv(p, c) && (b.next.Some? && b.Incomplete() ==> done(b.Pending()))
  }

  lemma StoppingTurn(rules: Rules, inv: State, good: Entry -> bool, done: seq<byte> -> bool, p: Parser, c: Conn, b: Buffer, cur: nat)
    requires Preserves(rules, inv, good) && WaitsOnly(rules, inv, done) && Stopping(inv, done, p, c, b, cur)
    requires b.Unparsed() > 0 && NextTurn(rules, p, c, b, cur).Some?
    ensures var t := NextTurn(rules, p, c, b, cur).value;
      if t.logged.None? then t.b.Valid() && done(t.b.Pending())
      else Stopping(inv, done, t.p, t.c, t.b, cur + |t.logged.value.msg|)
  {
    TurnPreserves(rules, inv, good, p, c, b, cur);
    var size := Measure(rules, p, c, b, cur).value;
    var b' := b.(next := size.next);
    if b'.Incomplete() {
      assert b'.Pending() == b.Pending();
    }
  }

  /** A pass stops where the measuring waits. */
  lemma PassStops(
    rules: Rules, inv: State, good: Entry -> bool, done: seq<byte> -> bool, p: Parser, c: Conn, b: Buffer, cur: nat)
    requires b.Valid() && Aligned(b, cur) && Preserves(rules, inv, good) && inv(p, c) && WaitsOnly(rules, inv, done)
    requires b.next.Some? && b.Incomplete() ==> done(b.Pending())
    requires Pass(rules, p, c, b, cur).Some?
    ensures var r := Pass(rules, p, c, b, cur).value; r.b.Valid() && done(r.b.Pending())
  {
    var at: AtTurn := (p, c, b, cur: nat) => Stopping(inv, done, p, c, b, cur);
    var end: AtEnd := (p, c, b: Buffer) => b.Valid() && done(b.Pending());
    forall p, c, b: Buffer, cur: nat | Stopping(inv, done, p, c, b, cur) ensures TurnsTo(rules, at, end, p, c, b, cur) {
      if b.Unparsed() == 0 {
        assert b.Pending() == [];
      } else if NextTurn(rules, p, c, b, cur).Some? {
        StoppingTurn(rules, inv, good, done, p, c, b, cur);
      }
    }
    PassReaches(rules, at, end, p, c, b, cur, Pass(rules, p, c, b, cur).value);
  }

  lemma PassMeasures(rules: Rules, inv: State, good: Entry -> bool, n: nat, p: Parser, c: Conn, b: Buffer, cur: nat)
    requires b.Valid() && cur <= b.written + b.parsed && Preserves(rules, inv, good) && inv(p, c) && MeasuresAtLeast(rules, inv, n)
    requires (b.next.Some? ==> b.next.value >= n) && Pass(rules, p, c, b, cur).Some?
    ensures var next := Pass(rules, p, c, b, cur).value.b.next; next.Some? ==> next.value >= n
  {
    var at: AtTurn := (p, c, b: Buffer, cur: nat) =>
      b.Valid() && cur <= b.written + b.parsed && inv(p, c) && (b.next.Some? ==> b.next.value >= n);
    var end: AtEnd := (p, c, b: Buffer) => b.next.Some? ==> b.next.value >= n;
    forall p, c, b: Buffer, cur: nat | at(p, c, b, cur) ensures TurnsTo(rules, at, end, p, c, b, cur) {
      if b.Unparsed() > 0 && NextTurn(rules, p, c, b, cur).Some? {
        TurnPreserves(rules, inv, good, p, c, b, cur);
        TurnMeasures(rules, inv, n, p, c, b, cur);
        TurnPlaces(rules, p, c, b, cur);
      }
    }
    PassReaches(rules, at, end, p, c, b, cur, Pass(rules, p, c, b, cur).value);
  }

  lemma TurnPlaces(rules: Rules, p: Parser, c: Conn, b: Buffer, cur: nat)
    requires b.Valid() && cur <= b.written + b.parsed && NextTurn(rules, p, c, b, cur).Some?
    ensures var t := NextTurn(rules, p, c, b, cur).value; t.logged.Some? ==>
      t.b.Valid() && cur + |t.logged.value.msg| <= t.b.written + t.b.parsed
  {
  }

  // ---- which bytes a pass takes ----

  lemma TurnSplits(rules: Rules, p: Parser, c: Conn, b: Buffer, cur: nat)
    requires b.Valid() && Aligned(b, cur) && NextTurn(rules, p, c, b, cur).Some?
    ensures var t := NextTurn(rules, p, c, b, cur).value;
      && (t.logged.None? ==> Splits(b, Passed(t.p, t.c, t.b, [])))
      && (t.logged.Some? ==> Splits(b, Passed(t.p, t.c, t.b, [t.logged.value])) && Aligned(t.b, cur + |t.logged.value.msg|))
  {
    var size := Measure(rules, p, c, b, cur).value;
    var b' := b.(next := size.next);
    var t := NextTurn(rules, p, c, b, cur).value;
    if t.logged.None? {
      SplitsNothing(b, Passed(t.p, t.c, t.b, []));
    } else {
      AdvanceSplits(rules, p, size.c, b', cur);
      assert Advance(rules, p, size.c, b', cur).value.log == [t.logged.value];
    }
  }

  lemma {:induction false} SplitsFrom(
    rules: Rules, loop: Loop, log: seq<Entry>, p: Parser, c: Conn, b: Buffer, cur: nat, r: Passed)
    requires LoopOf(rules, loop) && b.Valid() && Aligned(b, cur) && loop(log, p, c, b, cur) == Some(r)
    ensures log <= r.log && Splits(b, r.(log := r.log[|log|..]))
    decreases b.Unparsed()
  {
    if b.Unparsed() == 0 {
      LoopEnds(rules, loop, log, p, c, b, cur);
      SplitsNothing(b, r.(log := r.log[|log|..]));
    } else {
      LoopTurns(rules, loop, log, p, c, b, cur);
      TurnSplits(rules, p, c, b, cur);
      var t := NextTurn(rules, p, c, b, cur).value;
      if t.logged.Some? {
        var e := t.logged.value;
        SplitsFrom(rules, loop, log + [e], t.p, t.c, t.b, cur + |e.msg|, r);
        BehindFirst(log, e, r.log);
        SplitsJoin(b, Passed(t.p, t.c, t.b, [e]), r.(log := r.log[|log| + 1..]));
      } else {
        assert r.log[|log|..] == [];
      }
    }
  }

  /** One call marks adjacent, nonempty whole messages from the front of the pending bytes. */
  lemma PassSplits(rules: Rules, p: Parser, c: Conn, b: Buffer, cur: nat)
    requires b.Valid() && Aligned(b, cur) && Pass(rules, p, c, b, cur).Some?
    ensures Splits(b, Pass(rules, p, c, b, cur).value)
  {
    var loop: Loop := (log, p, c, b, cur: nat) => GoingOn(rules, log, p, c, b, cur);
    var r := Pass(rules, p, c, b, cur).value;
    LoopStarts(rules, loop, p, c, b, cur);
    SplitsFrom(rules, loop, [], p, c, b, cur, r);
    assert r.(log := r.log[0..]) == r;
  }
}
