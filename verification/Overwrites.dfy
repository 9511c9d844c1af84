/**
 What a view into a client's buffer spells after any run: what was last read to each of its places.
 */
module Overwrites {
  import opened Bytes
  import opened SocketBuffers
  import opened Wire
  import opened Tracking
  import opened Histories
  import opened MessageLoops
  import opened Passes
  import opened LoopRules
  import opened Relay
  import opened Worlds
  import opened WorldRuns

  /** Bytes that a read has put at `at` of the store. */
  datatype Stored = Stored(at: nat, bytes: seq<byte>)

  /** What the reads of a run have stored for the client of connection `id`: each piece behind what its buffer
      held then, or at the front if everything had been sent. */
  function StoredBy(w: World, actions: seq<Action>, id: nat): seq<Stored> {
    if actions == [] then []
    else
      var before, a := actions[..|actions| - 1], actions[|actions| - 1];
      StoredBy(w, before, id) + StoredNow(ActAll(w, before), a, id)
  }

  function StoredNow(w: Option<World>, a: Action, id: nat): seq<Stored> {
    if w.Some? && a.Read? && a.id == id && a.side.FromClient? && id in w.value.links
    then [Stored(w.value.links[id].client.b.read, a.chunk)] else []
  }

  /** The byte that was last stored at `i`. */
  function LastAt(stored: seq<Stored>, i: nat): Option<byte> {
    if stored == [] then None
    else
      var last := stored[|stored| - 1];
      if last.at <= i < last.at + |last.bytes| then Some(last.bytes[i - last.at]) else LastAt(stored[..|stored| - 1], i)
  }

  lemma LastOf(stored: seq<Stored>, s: Stored, i: nat)
    ensures LastAt(stored + [s], i) == if s.at <= i < s.at + |s.bytes| then Some(s.bytes[i - s.at]) else LastAt(stored, i)
  {
    assert (stored + [s])[..|stored|] == stored;
  }

  /** What is at `i` of a store after that. */
  function At(store: seq<byte>, stored: seq<Stored>, i: nat): byte
    requires i < |store|
  {
    if LastAt(stored, i).Some? then LastAt(stored, i).value else store[i]
  }

  /** If the store has not grown, it holds at each place what was last stored there. */
  predicate Holds(store: seq<byte>, stored: seq<Stored>, store': seq<byte>) {
    |store| <= |store'| && (|store'| == |store| ==> forall i :: 0 <= i < |store| ==> store'[i] == At(store, stored, i))
  }

  // ---- one step ----

  lemma ReadStores(p: Parser, c: Conn, d: Dir, chunk: seq<byte>)
    requires Settled(d.b, HeaderOf(FromClient)) && Receive(FromClient, p, c, d, chunk).Some?
    ensures var store := Receive(FromClient, p, c, d, chunk).value.d.b.store;
      && |d.b.store| <= |store|
      && (|store| == |d.b.store| ==>
            d.b.read + |chunk| <= |store| && store == d.b.store[..d.b.read] + chunk + d.b.store[d.b.read + |chunk|..])
  {
    var b := Filled(d.b, chunk).value;
    FilledAppends(d.b, HeaderOf(FromClient), chunk);
    ClientIsPlain();
    PassLeavesBytes(CLIENT_RULES, p, Refreshed(FromClient, c, b), b, b.written);
    StoreGrows(d.b, BytesToRead(d.b).value);
  }

  lemma StoreGrows(b: Buffer, room: nat)
    requires b.Valid()
    ensures |b.store| <= |Grown(b, room)| && (|Grown(b, room)| == |b.store| ==> Grown(b, room) == b.store)
  {
  }

  /** What a step stores for a client whose connection it leaves there. */
  lemma StepStores(p0: Parser, w: World, a: Action, id: nat)
    requires WorldHolds(p0, w) && Act(w, a).Some? && id in w.links && id in Act(w, a).value.links
    ensures id in w.used && Holds(w.links[id].client.b.store, StoredNow(Some(w), a, id), Act(w, a).value.links[id].client.b.store)
  {
    assert LinkHolds(p0.host, id, w.links[id]);
    if a.Read? && a.id == id && a.side.FromClient? {
      ReadStep(w, id, a.chunk);
    } else {
      OtherStores(w, a, id);
      assert StoredNow(Some(w), a, id) == [];
      NothingStored(w.links[id].client.b.store);
    }
  }

  lemma NothingStored(store: seq<byte>)
    ensures Holds(store, [], store)
  {
    assert forall i: nat :: LastAt([], i).None?;
  }

  lemma ReadStep(w: World, id: nat, chunk: seq<byte>)
    requires id in w.links && Settled(w.links[id].client.b, HeaderOf(FromClient)) && Act(w, Read(id, FromClient, chunk)).Some?
    ensures var b := w.links[id].client.b;
      Holds(b.store, [Stored(b.read, chunk)], Act(w, Read(id, FromClient, chunk)).value.links[id].client.b.store)
  {
    var k := w.links[id];
    ReadStores(w.p, k.c, k.client, chunk);
    OneStored(k.client.b.store, k.client.b.read, chunk, Receive(FromClient, w.p, k.c, k.client, chunk).value.d.b.store);
  }

  lemma OtherStores(w: World, a: Action, id: nat)
    requires Act(w, a).Some? && id in w.links && id in w.used && id in Act(w, a).value.links
    requires !(a.Read? && a.id == id && a.side.FromClient?)
    ensures Act(w, a).value.links[id].client.b.store == w.links[id].client.b.store
  {
  }

  lemma OneStored(store: seq<byte>, at: nat, chunk: seq<byte>, store': seq<byte>)
    requires |store| <= |store'|
    requires |store'| == |store| ==> at + |chunk| <= |store| && store' == store[..at] + chunk + store[at + |chunk|..]
    ensures Holds(store, [Stored(at, chunk)], store')
  {
    forall i | 0 <= i < |store| && |store'| == |store| ensures store'[i] == At(store, [Stored(at, chunk)], i) {
      OneOf(Stored(at, chunk), i);
    }
  }

  // ---- whole runs ----

  lemma OneOf(s: Stored, i: nat)
    ensures LastAt([s], i) == if s.at <= i < s.at + |s.bytes| then Some(s.bytes[i - s.at]) else None
  {
    LastOf([], s, i);
    assert [] + [s] == [s];
  }

  lemma HoldsMore(store: seq<byte>, stored: seq<Stored>, mid: seq<byte>, more: seq<Stored>, store': seq<byte>)
    requires Holds(store, stored, mid) && Holds(mid, more, store') && |more| <= 1
    ensures Holds(store, stored + more, store')
  {
    if more == [] {
      assert stored + more == stored;
      assert forall i: nat :: LastAt(more, i).None?;
    } else if |store'| == |store| {
      forall i | 0 <= i < |store| ensures store'[i] == At(store, stored + more, i) {
        assert more == [more[0]] && store'[i] == At(mid, more, i) && mid[i] == At(store, stored, i);
        OneOf(more[0], i);
        LastOf(stored, more[0], i);
      }
    }
  }

  /** As long as a client's connection stays and its store does not grow, the store holds at each place what a
      read has last put there, and what it held before where none has. */
  lemma {:induction false} StoreHolds(p0: Parser, w: World, actions: seq<Action>, id: nat)
    requires Fresh(p0) && WorldHolds(p0, w) && id in w.links && id in w.used
    requires ActAll(w, actions).Some? && id in ActAll(w, actions).value.links
    ensures var w' := ActAll(w, actions).value;
      && WorldHolds(p0, w') && id in w'.used
      && Holds(w.links[id].client.b.store, StoredBy(w, actions, id), w'.links[id].client.b.store)
    decreases |actions|
  {
    if actions != [] {
      var before, a := actions[..|actions| - 1], actions[|actions| - 1];
      StaysUsed(w, before, id);
      var v := ActAll(w, before).value;
      assert id in v.links;
      StoreHolds(p0, w, before, id);
      ActKeepsAll(p0, v, a);
      StepStores(p0, v, a, id);
      HoldsMore(w.links[id].client.b.store, StoredBy(w, before, id), v.links[id].client.b.store, StoredNow(Some(v), a, id),
                Act(v, a).value.links[id].client.b.store);
    }
  }

  lemma {:induction false} StaysUsed(w: World, actions: seq<Action>, id: nat)
    requires id in w.used && ActAll(w, actions).Some?
    ensures id in ActAll(w, actions).value.used
    decreases |actions|
  {
    if actions != [] {
      StaysUsed(w, actions[..|actions| - 1], id);
    }
  }

  /** Over any run: a view that spelled `name` still does if and only if the client's store has not grown and
      the reads since then have last put the same bytes, or none, at each of its places. */
  lemma StillSpellsExactly(p0: Parser, w: World, actions: seq<Action>, id: nat, v: Slice, name: Name)
    requires Fresh(p0) && WorldHolds(p0, w) && id in w.links && id in w.used
    requires ActAll(w, actions).Some? && id in ActAll(w, actions).value.links
    requires Spelled(w.links[id].c.mem, v) == Some(name)
    ensures var w' := ActAll(w, actions).value; var stored := StoredBy(w, actions, id);
      Spelled(w'.links[id].c.mem, v) == Some(name) <==>
      |w'.links[id].c.mem| == |w.links[id].c.mem|
      && forall i :: 0 <= i < |name| ==> LastAt(stored, v.at + i).None? || LastAt(stored, v.at + i) == Some(name[i])
  {
    StoreHolds(p0, w, actions, id);
    var w' := ActAll(w, actions).value;
    assert LinkHolds(p0.host, id, w.links[id]) && LinkHolds(p0.host, id, w'.links[id]);
    SpelledPlaces(w.links[id].c.mem, StoredBy(w, actions, id), w'.links[id].c.mem, v, name);
  }

  lemma SpelledPlaces(mem: seq<byte>, stored: seq<Stored>, mem': seq<byte>, v: Slice, name: Name)
    requires Holds(mem, stored, mem') && Spelled(mem, v) == Some(name)
    ensures Spelled(mem', v) == Some(name) <==>
      |mem'| == |mem| && forall i :: 0 <= i < |name| ==> LastAt(stored, v.at + i).None? || LastAt(stored, v.at + i) == Some(name[i])
  {
    if |mem'| == |mem| {
      var now := mem'[v.at..v.at + v.sz];
      forall i | 0 <= i < |name|
        ensures now[i] == name[i] <==> LastAt(stored, v.at + i).None? || LastAt(stored, v.at + i) == Some(name[i])
      {
        assert name[i] == mem[v.at + i] && now[i] == mem'[v.at + i] == At(mem, stored, v.at + i);
      }
      assert now == name <==> forall i :: 0 <= i < |name| ==> now[i] == name[i];
    }
  }
}
