/**
 The relay's copy of the server's atom names: fetched before the first client, then kept up with the
 InternAtom traffic.
 */
module AtomMirror {
  import opened Bytes
  import opened Wire
  import opened Tracking
  import opened Histories

  const PREDEFINED_MAX: nat := 68
  const STRINGBUF_SZ: nat := 1000
  const ATOM_ERROR: nat := 5

  /** What the server answers to one GetAtomName request. */
  datatype Answer = Named(name: Name) | Error(code: nat)

  datatype Fetch = Fetched(atoms: seq<Name>) | Aborted

  /** The reply fits the relay's text buffer and its 16-bit number is the atom asked for. */
  predicate Readable(i: nat, name: Name) { i < 0x1_0000 && Pad(|name|) < 1000 }

  predicate AllReadable(answers: seq<Answer>, m: nat) {
    m <= |answers| && forall i: nat :: i < m ==> answers[i].Named? && Readable(i + 1, answers[i].name)
  }

  /** Asks for atom 1, 2, ... until the server answers with an error. Another error than the expected
      one drops everything fetched; running out of answers is a lost connection. */
  method FetchInternedAtoms(answers: seq<Answer>) returns (f: Fetch)
    ensures f.Fetched? ==>
      exists m: nat :: AllReadable(answers, m) && m < |answers| && answers[m].Error?
        && f.atoms == if answers[m].code != ATOM_ERROR then []
                      else [[]] + seq(m, i requires 0 <= i < m => CString(answers[i].name))
    ensures f.Aborted? ==>
      exists m: nat :: AllReadable(answers, m)
        && (m == |answers| || (answers[m].Named? && !Readable(m + 1, answers[m].name)))
  {
    var fetched: seq<Name> := [[]];
    var atom := 1;
    while atom - 1 < |answers|
      invariant 1 <= atom && AllReadable(answers, atom - 1)
      invariant fetched == [[]] + seq(atom - 1, i requires 0 <= i < atom - 1 => CString(answers[i].name))
    {
      match answers[atom - 1]
      case Error(code) =>
        return Fetched(if code != ATOM_ERROR then [] else fetched);
      case Named(name) =>
        if atom >= SEQ_MOD || Pad(|name|) >= STRINGBUF_SZ {
          return Aborted;
        }
        fetched := fetched + [CString(name)];
        atom := atom + 1;
    }
    return Aborted;
  }

  /** Adds the fetched names after the predefined ones, without replacing any. */
  function Imported(atoms: map<nat, Name>, fetched: seq<Name>): (r: map<nat, Name>)
    ensures forall a :: a in r <==> a in atoms || 68 < a < |fetched|
    ensures forall a <- r :: r[a] == if a in atoms then atoms[a] else fetched[a]
  {
    (map i: nat | PREDEFINED_MAX < i < |fetched| :: fetched[i]) + atoms
  }

  method ImportFetchedAtoms(atoms: map<nat, Name>, fetched: seq<Name>) returns (atoms': map<nat, Name>)
    requires |atoms| == PREDEFINED_MAX
    ensures atoms' == Imported(atoms, fetched)
  {
    atoms' := atoms;
    var i := PREDEFINED_MAX + 1;
    while i < |fetched|
      invariant PREDEFINED_MAX < i && (i <= |fetched| || i == PREDEFINED_MAX + 1)
      invariant forall a <- atoms' :: a in atoms || PREDEFINED_MAX < a < i
      invariant forall a <- atoms :: a in atoms' && atoms'[a] == atoms[a]
      invariant forall a: nat :: PREDEFINED_MAX < a < i && a < |fetched| && a !in atoms ==> a in atoms' && atoms'[a] == fetched[a]
    {
      if i !in atoms' {
        atoms' := atoms'[i := fetched[i]];
      }
      i := i + 1;
    }
    assert atoms'.Keys == Imported(atoms, fetched).Keys;
  }

  /** Every name the relay holds is the server's own. */
  predicate Mirrors(atoms: map<nat, Name>, table: map<nat, Name>) {
    forall a <- atoms :: a in table && atoms[a] == table[a]
  }

  /** The server's answers, each from the table it has when asked; tables only grow, up to `table`. */
  ghost predicate AnswersFrom(answers: seq<Answer>, tables: seq<map<nat, Name>>, table: map<nat, Name>) {
    && |answers| == |tables|
    && (forall i: nat :: i < |tables| ==> Mirrors(tables[i], table))
    && forall i: nat :: i < |answers| ==>
         answers[i] == if i + 1 in tables[i] then Named(tables[i][i + 1]) else Error(ATOM_ERROR)
  }

  /** Prefetching stops at the first id that is unused when asked for, with the server's name for atom
      `i` at index `i`; the import agrees with the server if and only if no imported name has a zero byte. */
  lemma PrefetchMirrors(answers: seq<Answer>, tables: seq<map<nat, Name>>, table: map<nat, Name>, m: nat,
                        fetched: seq<Name>, predefined: map<nat, Name>)
    requires AnswersFrom(answers, tables, table) && m < |answers| && answers[m].Error?
    requires forall i: nat :: i < m ==> answers[i].Named?
    requires fetched == [[]] + seq(m, i requires 0 <= i < m => CString(answers[i].name))
    requires Mirrors(predefined, table) && (forall a <- predefined :: 1 <= a <= PREDEFINED_MAX)
    ensures m + 1 !in tables[m] && |fetched| == m + 1
    ensures forall i: nat :: 1 <= i <= m ==> i in table && fetched[i] == CString(table[i])
    ensures Mirrors(Imported(predefined, fetched), table) <==> forall i: nat :: PREDEFINED_MAX < i <= m ==> 0 !in table[i]
  {
    forall i: nat | 1 <= i <= m ensures i in table && fetched[i] == CString(table[i]) {
      assert answers[i - 1] == Named(tables[i - 1][i]);
      assert Mirrors(tables[i - 1], table);
    }
    var atoms := Imported(predefined, fetched);
    forall i: nat | PREDEFINED_MAX < i <= m ensures i in atoms && (atoms[i] == table[i] <==> 0 !in table[i]) {
      CStringKeepsAll(table[i]);
    }
  }

  // ---- InternAtom traffic ----

  predicate IsReply(m: seq<byte>) { |m| >= RESPONSE_SZ && m[0] == REPLY_PREFIX }

  /** Request `n` is the InternAtom request that `m`, with an atom in it, replies to. */
  predicate Interns(o: ByteOrder, rs: seq<Placed>, m: seq<byte>, n: nat)
    requires IsReply(m)
  {
    && Carries(rs, n, U16(o, m, 2)) && rs[n - 1].msg != [] && rs[n - 1].msg[0] == INTERN_ATOM
    && NameIn(o, rs[n - 1].msg).Some? && U32(o, m, 8) != 0
  }

  ghost predicate AnswerIsHonest(o: ByteOrder, rs: seq<Placed>, m: seq<byte>, table: map<nat, Name>)
    requires IsReply(m)
  {
    forall n :: Interns(o, rs, m, n) ==> U32(o, m, 8) in table && table[U32(o, m, 8)] == NameIn(o, rs[n - 1].msg).value
  }

  /** The server answers every InternAtom request with the id its table gives that name. */
  ghost predicate Honest(p: Parser, es: seq<Event>, table: map<nat, Name>) {
    forall i: nat :: i < |es| && es[i].Response? && IsReply(es[i].msg)
      ==> AnswerIsHonest(OrderAfter(p, es[..i], es[i].id), Requests(es[..i], es[i].id), es[i].msg, table)
  }

  /** When response `m` comes, the bytes at the place of the name it interns still spell that name. */
  ghost predicate NameIntact(p: Parser, es: seq<Event>, id: nat, m: seq<byte>)
    requires IsReply(m)
  {
    var o, rs := OrderAfter(p, es, id), Requests(es, id);
    forall n :: Interns(o, rs, m, n) ==> NameNow(p, es, id, rs[n - 1]) == NameIn(o, rs[n - 1].msg)
  }

  ghost predicate IntactAt(p: Parser, es: seq<Event>, i: nat)
    requires i < |es|
  {
    es[i].Response? && IsReply(es[i].msg) ==> NameIntact(p, es[..i], es[i].id, es[i].msg)
  }

  /** The mirror is right after the run `es`. */
  ghost predicate MirrorAfter(p: Parser, es: seq<Event>, table: map<nat, Name>) {
    Run(Start(p), es).Some? && Mirrors(Run(Start(p), es).value.p.atoms, table)
  }

  /** ... and all along it. */
  ghost predicate MirrorAlong(p: Parser, es: seq<Event>, table: map<nat, Name>) {
    forall i: nat :: i <= |es| ==> MirrorAfter(p, es[..i], table)
  }

  lemma MirrorsUpdated(atoms: map<nat, Name>, table: map<nat, Name>, a: nat, name: Name)
    requires Mirrors(atoms, table)
    ensures Mirrors(atoms[a := name], table) <==> a in table && table[a] == name
  {
    if a in table && table[a] == name {
      assert forall x <- atoms[a := name] :: x == a || x in atoms;
    } else {
      assert a in atoms[a := name] && atoms[a := name][a] == name;
    }
  }

  /** What a reply does to the mirror, as it stands in the code. */
  lemma AtomsAfter(p: Parser, c: Conn, m: seq<byte>)
    requires IsReply(m) && LogResponse(p, c, m).Some?
    ensures var k := U16(Order(p, c), m, 2); var a := U32(Order(p, c), m, 8); var p' := LogResponse(p, c, m).value.p;
      && k in c.opcodes
      && (c.opcodes[k] != INTERN_ATOM || a == 0 ==> p'.atoms == p.atoms)
      && (c.opcodes[k] == INTERN_ATOM && a != 0 ==>
            && (c.id, k) in p.stash && Spelled(c.mem, p.stash[(c.id, k)]).Some?
            && p'.atoms == p.atoms[a := Spelled(c.mem, p.stash[(c.id, k)]).value])
  {
  }

  /** The number of a reply is that of one request, which is the one that the reply was taken to answer. */
  lemma RepliesTo(p: Parser, es: seq<Event>, id: nat, m: seq<byte>) returns (n: nat)
    requires Answers(p, es, id, m) && IsReply(m) && |Requests(es, id)| <= SEQ_MOD
    ensures var s := Run(Start(p), es).value; var o := OrderAfter(p, es, id); var rs := Requests(es, id); var k := U16(o, m, 2);
      && Order(s.p, s.conns[id]) == o && s.conns[id].id == id && s.conns[id].mem == MemOf(es, id)
      && Carries(rs, n, k) && k in s.conns[id].opcodes && rs[n - 1].msg != [] && rs[n - 1].msg[0] == s.conns[id].opcodes[k]
      && ((id, k) in s.p.stash ==> SliceOf(o, rs[n - 1]) == Some(s.p.stash[(id, k)]))
      && forall n' :: Carries(rs, n', k) ==> n' == n
  {
    RunAgrees(p, es);
    var s, k := Run(Start(p), es).value, U16(OrderAfter(p, es, id), m, 2);
    assert ConnAgrees(p, s, es, id);
    AtomsAfter(s.p, s.conns[id], m);
    n :| Carries(Requests(es, id), n, k) && Requests(es, id)[n - 1].msg != [];
    ReplyFindsItsRequest(p, es, id, m, n);
    OnlyOneCarries(Requests(es, id), n, k);
  }

  /** One reply keeps the mirror right if and only if the name it interns is intact. */
  lemma ReplyKeepsMirror(p: Parser, es: seq<Event>, id: nat, m: seq<byte>, table: map<nat, Name>)
    requires Answers(p, es, id, m) && IsReply(m) && |Requests(es, id)| <= SEQ_MOD && MirrorAfter(p, es, table)
    requires AnswerIsHonest(OrderAfter(p, es, id), Requests(es, id), m, table)
    ensures Mirrors(Histories.Answer(p, es, id, m).p.atoms, table) <==> NameIntact(p, es, id, m)
  {
    var n := RepliesTo(p, es, id, m);
    var s, o, r := Run(Start(p), es).value, OrderAfter(p, es, id), Requests(es, id)[n - 1];
    var c := s.conns[id];
    AtomsAfter(s.p, c, m);
    IntactMeans(p, es, id, m, n);
    if r.msg[0] == INTERN_ATOM && U32(o, m, 8) != 0 {
      var now := Spelled(c.mem, s.p.stash[(id, U16(o, m, 2))]);
      assert NameNow(p, es, id, r) == now;
      MirrorsUpdated(s.p.atoms, table, U32(o, m, 8), now.value);
    }
  }

  lemma IntactMeans(p: Parser, es: seq<Event>, id: nat, m: seq<byte>, n: nat)
    requires IsReply(m) && forall n' :: Carries(Requests(es, id), n', U16(OrderAfter(p, es, id), m, 2)) ==> n' == n
    ensures var o := OrderAfter(p, es, id); var rs := Requests(es, id);
      NameIntact(p, es, id, m) <==> (Interns(o, rs, m, n) ==> NameNow(p, es, id, rs[n - 1]) == NameIn(o, rs[n - 1].msg))
  {
  }

  lemma StepKeepsMirror(p: Parser, es: seq<Event>, table: map<nat, Name>)
    requires Fresh(p) && es != [] && Run(Start(p), es).Some? && Honest(p, es, table)
    requires forall id: nat :: |Requests(es, id)| <= SEQ_MOD
    requires MirrorAfter(p, es[..|es| - 1], table)
    ensures MirrorAfter(p, es, table) <==> IntactAt(p, es, |es| - 1)
  {
    var before, e := es[..|es| - 1], es[|es| - 1];
    var s := Run(Start(p), before).value;
    if e.Response? {
      if IsReply(e.msg) {
        RequestsPrefix(es, |es| - 1, e.id);
        ReplyKeepsMirror(p, before, e.id, e.msg, table);
      }
    } else if e.Request? {
      RequestHasEffect(s.p, s.conns[e.id], e.msg, e.at);
    }
  }

  /** However connections interleave their InternAtom requests, within each one's first 65,536 requests:
      every name in the mirror is the server's own name for that atom, all along the run, if and only if
      every reply finds the bytes where its request's string was still spelling that string. */
  lemma {:induction false} TrafficKeepsMirror(p: Parser, es: seq<Event>, table: map<nat, Name>)
    requires Fresh(p) && Run(Start(p), es).Some? && Mirrors(p.atoms, table) && Honest(p, es, table)
    requires forall id: nat :: |Requests(es, id)| <= SEQ_MOD
    ensures MirrorAlong(p, es, table) <==> forall i: nat :: i < |es| ==> IntactAt(p, es, i)
    decreases |es|
  {
    if es == [] {
      assert MirrorAfter(p, es[..0], table);
    } else {
      var last := |es| - 1;
      var before := es[..last];
      forall id: nat ensures |Requests(before, id)| <= SEQ_MOD {
        RequestsPrefix(es, last, id);
      }
      forall i: nat | i <= last ensures before[..i] == es[..i] {}
      forall i: nat | i < last ensures before[i] == es[i] && (IntactAt(p, before, i) <==> IntactAt(p, es, i)) {}
      TrafficKeepsMirror(p, before, table);
      AlongOneMore(p, es, table);
      if MirrorAlong(p, before, table) {
        assert MirrorAfter(p, before[..last], table) && before[..last] == before;
        StepKeepsMirror(p, es, table);
      }
    }
  }

  lemma AlongOneMore(p: Parser, es: seq<Event>, table: map<nat, Name>)
    requires es != []
    ensures MirrorAlong(p, es, table) <==> MirrorAlong(p, es[..|es| - 1], table) && MirrorAfter(p, es, table)
  {
    var before := es[..|es| - 1];
    forall i: nat | i <= |es| - 1 ensures before[..i] == es[..i] {}
    assert es[..|es|] == es;
    if MirrorAlong(p, es, table) {
      forall i: nat | i <= |before| ensures MirrorAfter(p, before[..i], table) {
        assert MirrorAfter(p, es[..i], table);
      }
      assert MirrorAfter(p, es[..|es|], table);
    } else if MirrorAlong(p, before, table) && MirrorAfter(p, es, table) {
      forall i: nat | i <= |es| ensures MirrorAfter(p, es[..i], table) {
        assert i < |es| ==> MirrorAfter(p, before[..i], table);
      }
    }
  }

  /** Reading nothing from the client between its InternAtom request, event `i`, and the reply is enough. */
  lemma UnreadIsIntact(p: Parser, es: seq<Event>, i: nat, m: seq<byte>)
    requires Fresh(p) && Run(Start(p), es).Some? && i < |es| && es[i].Request? && Unread(es, i, es[i].id)
    requires IsReply(m) && |Requests(es, es[i].id)| <= SEQ_MOD
    requires (|Requests(es[..i], es[i].id)| + 1) % SEQ_MOD == U16(OrderAfter(p, es, es[i].id), m, 2)
    ensures NameIntact(p, es, es[i].id, m)
  {
    var id, n := es[i].id, |Requests(es[..i], es[i].id)| + 1;
    ListedAt(es, i);
    UnreadNameIsItsOwn(p, es, i);
    OnlyOneCarries(Requests(es, id), n, U16(OrderAfter(p, es, id), m, 2));
    IntactMeans(p, es, id, m, n);
  }
}
