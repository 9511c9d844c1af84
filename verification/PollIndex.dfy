/**
 The array handed to poll(2), the index from descriptors into it, and the descriptors of the connections.
 */
module PollIndex {
  import opened Bytes

  /** Which conditions poll(2) is asked for, or has reported. */
  datatype Flags = Flags(pri: bool, read: bool, write: bool, error: bool)

  const NO_FLAGS := Flags(false, false, false, false)

  datatype PollFd = PollFd(fd: nat, events: Flags, revents: Flags)

  /** The two ends of a connection. */
  datatype Ends = Ends(client: nat, server: nat)

  predicate Has(e: Ends, fd: nat) { fd == e.client || fd == e.server }

  predicate Apart(e: Ends, e': Ends) { !Has(e', e.client) && !Has(e', e.server) }

  /** The index is a bijection between its keys and the positions of the poll array, and every indexed
      entry is its key's own. */
  predicate Bijective(pfds: seq<PollFd>, index: map<nat, nat>) {
    && (forall fd <- index :: index[fd] < |pfds| && pfds[index[fd]].fd == fd)
    && (forall i :: 0 <= i < |pfds| ==> pfds[i].fd in index && index[pfds[i].fd] == i)
  }

  predicate Distinct(listenerFd: nat, ends: map<nat, Ends>) {
    && (forall id <- ends :: listenerFd < ends[id].client && listenerFd < ends[id].server && ends[id].client != ends[id].server)
    && (forall id, id' {:trigger Apart(ends[id], ends[id'])} ::
          id in ends && id' in ends && id != id' ==> Apart(ends[id], ends[id']))
  }

  /** The polled descriptors are the listener and both ends of every connection. */
  ghost predicate Covers(index: map<nat, nat>, listenerFd: nat, ends: map<nat, Ends>) {
    && listenerFd in index
    && (forall id <- ends :: ends[id].client in index && ends[id].server in index)
    && (forall fd {:trigger Owned(ends, listenerFd, fd)} :: fd in index ==> Owned(ends, listenerFd, fd))
  }

  /** A descriptor of a connection, or the listener's. */
  ghost predicate Owned(ends: map<nat, Ends>, listenerFd: nat, fd: nat) {
    fd == listenerFd || exists id :: id in ends && Has(ends[id], fd)
  }

  lemma DistinctAdded(index: map<nat, nat>, listenerFd: nat, ends: map<nat, Ends>, id: nat, e: Ends)
    requires Distinct(listenerFd, ends) && Covers(index, listenerFd, ends) && id !in ends
    requires listenerFd < e.client && listenerFd < e.server && e.client != e.server
    requires e.client !in index && e.server !in index
    ensures Distinct(listenerFd, ends[id := e])
  {
    var ends' := ends[id := e];
    forall i <- ends', i' <- ends' | i != i' ensures Apart(ends'[i], ends'[i']) {
      if i == id {
        assert ends[i'].client in index && ends[i'].server in index;
      } else if i' == id {
        assert ends[i].client in index && ends[i].server in index;
      } else {
        assert Apart(ends[i], ends[i']);
      }
    }
  }

  lemma CoversAdded(index: map<nat, nat>, index': map<nat, nat>, listenerFd: nat, ends: map<nat, Ends>, id: nat, e: Ends)
    requires Covers(index, listenerFd, ends) && id !in ends && index'.Keys == index.Keys + {e.client, e.server}
    ensures Covers(index', listenerFd, ends[id := e])
  {
    var ends' := ends[id := e];
    forall i <- ends' ensures ends'[i].client in index' && ends'[i].server in index' {
      assert i != id ==> ends[i].client in index && ends[i].server in index;
    }
    forall fd <- index' ensures Owned(ends', listenerFd, fd) {
      if fd in index && fd != listenerFd {
        assert Owned(ends, listenerFd, fd);
        var i :| i in ends && Has(ends[i], fd);
        assert i in ends' && Has(ends'[i], fd);
      } else if fd != listenerFd {
        assert id in ends' && Has(ends'[id], fd);
      }
    }
  }

  lemma DistinctRemoved(listenerFd: nat, ends: map<nat, Ends>, id: nat)
    requires Distinct(listenerFd, ends)
    ensures Distinct(listenerFd, ends - {id})
  {
    var ends' := ends - {id};
    forall i <- ends', i' <- ends' | i != i' ensures Apart(ends'[i], ends'[i']) {
      assert Apart(ends[i], ends[i']);
    }
  }

  /** Taking the ends of one connection out of the index leaves exactly the others. */
  lemma CoversRemoved(index: map<nat, nat>, listenerFd: nat, ends: map<nat, Ends>, id: nat)
    requires Distinct(listenerFd, ends) && Covers(index, listenerFd, ends) && id in ends
    ensures Covers(index - {ends[id].client, ends[id].server}, listenerFd, ends - {id})
  {
    var ends', index' := ends - {id}, index - {ends[id].client, ends[id].server};
    forall i <- ends' ensures ends'[i].client in index' && ends'[i].server in index' {
      assert Apart(ends[id], ends[i]) && ends[i].client in index && ends[i].server in index;
    }
    forall fd <- index' ensures Owned(ends', listenerFd, fd) {
      if fd != listenerFd {
        assert Owned(ends, listenerFd, fd);
        var i :| i in ends && Has(ends[i], fd);
        assert i in ends' && Has(ends'[i], fd);
      }
    }
  }

  /** A descriptor of one of the connections `ids`. */
  predicate EndOf(ends: map<nat, Ends>, ids: seq<nat>, fd: nat) {
    exists id <- ids :: id in ends && Has(ends[id], fd)
  }

  function AsSet(ids: seq<nat>): set<nat> { set id | id in ids }

  lemma EndOfMore(ends: map<nat, Ends>, ids: seq<nat>, i: nat)
    requires i < |ids| && ids[i] in ends
    ensures forall fd :: EndOf(ends, ids[..i + 1], fd) <==> EndOf(ends, ids[..i], fd) || Has(ends[ids[i]], fd)
    ensures AsSet(ids[..i + 1]) == AsSet(ids[..i]) + {ids[i]}
  {
    assert ids[..i + 1] == ids[..i] + [ids[i]];
    forall fd ensures EndOf(ends, ids[..i + 1], fd) <==> EndOf(ends, ids[..i], fd) || Has(ends[ids[i]], fd) {
      if Has(ends[ids[i]], fd) {
        assert ids[i] in ids[..i + 1];
      }
    }
  }

  /** `index` and `ends` without the connections `ids`. */
  ghost predicate Removed(index0: map<nat, nat>, ends0: map<nat, Ends>, ids: seq<nat>, index: map<nat, nat>, ends: map<nat, Ends>) {
    && ends == ends0 - AsSet(ids)
    && index.Keys <= index0.Keys && (forall fd <- index :: index[fd] == index0[fd])
    && forall fd {:trigger EndOf(ends0, ids, fd)} :: fd in index0 ==> (fd !in index <==> EndOf(ends0, ids, fd))
  }

  lemma RemovedMore(index0: map<nat, nat>, ends0: map<nat, Ends>, ids: seq<nat>, i: nat, index: map<nat, nat>, ends: map<nat, Ends>)
    requires i < |ids| && ids[i] in ends && Removed(index0, ends0, ids[..i], index, ends)
    ensures Removed(index0, ends0, ids[..i + 1], index - {ends[ids[i]].client, ends[ids[i]].server}, ends - {ids[i]})
  {
    EndOfMore(ends0, ids, i);
  }

  /** One connection fewer. */
  lemma OneLess(listenerFd: nat, index0: map<nat, nat>, ends0: map<nat, Ends>, ids: seq<nat>, i: nat,
                index: map<nat, nat>, ends: map<nat, Ends>)
    requires i < |ids| && ids[i] in ends0 && ids[i] !in ids[..i]
    requires Distinct(listenerFd, ends) && Covers(index, listenerFd, ends) && Removed(index0, ends0, ids[..i], index, ends)
    ensures ids[i] in ends
    ensures var index', ends' := index - {ends[ids[i]].client, ends[ids[i]].server}, ends - {ids[i]};
      Distinct(listenerFd, ends') && Covers(index', listenerFd, ends') && Removed(index0, ends0, ids[..i + 1], index', ends')
  {
    DistinctRemoved(listenerFd, ends, ids[i]);
    CoversRemoved(index, listenerFd, ends, ids[i]);
    RemovedMore(index0, ends0, ids, i, index, ends);
  }

  /** Every entry of the smaller index is where it says, in the old array. */
  predicate Indexes(pfds: seq<PollFd>, index: map<nat, nat>) {
    forall fd <- index :: index[fd] < |pfds| && pfds[index[fd]].fd == fd
  }

  /** Zips the array to the keys of an index that has lost some: one entry for each key, in whatever
      order the keys come, each as it was. */
  method Compact(pfds: seq<PollFd>, index: map<nat, nat>) returns (pfds': seq<PollFd>, index': map<nat, nat>)
    requires Indexes(pfds, index)
    ensures index'.Keys == index.Keys && |pfds'| == |index|
    ensures Bijective(pfds', index')
    ensures forall fd <- index' :: index'[fd] < |pfds'| && pfds'[index'[fd]] == pfds[index[fd]]
  {
    pfds', index' := [], map[];
    var rest := index.Keys;
    while rest != {}
      invariant rest <= index.Keys && index'.Keys == index.Keys - rest && |pfds'| + |rest| == |index.Keys|
      invariant Bijective(pfds', index')
      invariant forall fd <- index' :: index'[fd] < |pfds'| && pfds'[index'[fd]] == pfds[index[fd]]
      decreases |rest|
    {
      var fd :| fd in rest;
      pfds', index' := pfds' + [pfds[index[fd]]], index'[fd := |pfds'|];
      rest := rest - {fd};
    }
    assert |index.Keys| == |index|;
  }

  /** The array with what is asked of one connection's two descriptors. */
  function WithAsked(pfds: seq<PollFd>, index: map<nat, nat>, e: Ends, ask: (Flags, Flags)): seq<PollFd>
    requires Indexes(pfds, index) && e.client in index && e.server in index
  {
    var pfds' := pfds[index[e.client] := pfds[index[e.client]].(events := ask.0)];
    pfds'[index[e.server] := pfds'[index[e.server]].(events := ask.1)]
  }

  lemma AskedFrame(pfds: seq<PollFd>, index: map<nat, nat>, e: Ends, ask: (Flags, Flags))
    requires Bijective(pfds, index) && e.client in index && e.server in index && e.client != e.server
    ensures var pfds' := WithAsked(pfds, index, e, ask);
      && Bijective(pfds', index) && |pfds'| == |pfds|
      && pfds'[index[e.client]].events == ask.0 && pfds'[index[e.server]].events == ask.1
      && (forall i :: 0 <= i < |pfds| ==> pfds'[i] == pfds[i].(events := pfds'[i].events))
      && (forall fd <- index :: !Has(e, fd) ==> pfds'[index[fd]] == pfds[index[fd]])
  {
    assert index[e.client] != index[e.server];
  }

  /** The descriptors of one connection are those of no other, and not the listener's. */
  lemma OthersApart(listenerFd: nat, ends: map<nat, Ends>, id: nat)
    requires Distinct(listenerFd, ends) && id in ends
    ensures ends[id].client != ends[id].server && !Has(ends[id], listenerFd)
    ensures forall id' <- ends :: id' != id ==> !Has(ends[id], ends[id'].client) && !Has(ends[id], ends[id'].server)
  {
    forall id' <- ends ensures id' != id ==> !Has(ends[id], ends[id'].client) && !Has(ends[id], ends[id'].server) {
      assert id' != id ==> Apart(ends[id'], ends[id]);
    }
  }

  /** `pfds` is `pfds0` once the connections `done` have been asked for; nothing else has changed. */
  predicate Asking(pfds0: seq<PollFd>, pfds: seq<PollFd>, index: map<nat, nat>, listenerFd: nat, ends: map<nat, Ends>,
                   done: set<nat>, asks: map<nat, (Flags, Flags)>)
    requires Bijective(pfds0, index) && listenerFd in index && ends.Keys <= asks.Keys
    requires forall id <- ends :: ends[id].client in index && ends[id].server in index
  {
    && Bijective(pfds, index) && |pfds| == |pfds0|
    && (forall i :: 0 <= i < |pfds| ==> pfds[i] == pfds0[i].(events := pfds[i].events))
    && pfds[index[listenerFd]] == pfds0[index[listenerFd]]
    && forall id <- ends :: id in done ==>
         pfds[index[ends[id].client]].events == asks[id].0 && pfds[index[ends[id].server]].events == asks[id].1
  }

  lemma AskingMore(pfds0: seq<PollFd>, pfds: seq<PollFd>, index: map<nat, nat>, listenerFd: nat, ends: map<nat, Ends>,
                   done: set<nat>, asks: map<nat, (Flags, Flags)>, id: nat)
    requires Bijective(pfds0, index) && listenerFd in index && ends.Keys <= asks.Keys && Distinct(listenerFd, ends)
    requires forall id <- ends :: ends[id].client in index && ends[id].server in index
    requires Asking(pfds0, pfds, index, listenerFd, ends, done, asks) && id in ends
    ensures Asking(pfds0, WithAsked(pfds, index, ends[id], asks[id]), index, listenerFd, ends, done + {id}, asks)
  {
    OthersApart(listenerFd, ends, id);
    AskedFrame(pfds, index, ends[id], asks[id]);
  }

  /** The array once the connections `order` have been asked for, one after another. */
  function AskedInOrder(pfds: seq<PollFd>, index: map<nat, nat>, ends: map<nat, Ends>, asks: map<nat, (Flags, Flags)>,
                        order: seq<nat>): (r: seq<PollFd>)
    requires Indexes(pfds, index) && ends.Keys <= asks.Keys && (forall id <- order :: id in ends)
    requires forall id <- ends :: ends[id].client in index && ends[id].server in index
    ensures Indexes(r, index)
  {
    if order == [] then pfds
    else
      var id := order[|order| - 1];
      WithAsked(AskedInOrder(pfds, index, ends, asks, order[..|order| - 1]), index, ends[id], asks[id])
  }

  lemma {:induction false} AskedInOrderIsAsking(
    pfds: seq<PollFd>, index: map<nat, nat>, listenerFd: nat, ends: map<nat, Ends>, asks: map<nat, (Flags, Flags)>, order: seq<nat>)
    requires Bijective(pfds, index) && listenerFd in index && ends.Keys <= asks.Keys && Distinct(listenerFd, ends)
    requires forall id <- ends :: ends[id].client in index && ends[id].server in index
    requires forall id <- order :: id in ends
    ensures Asking(pfds, AskedInOrder(pfds, index, ends, asks, order), index, listenerFd, ends, AsSet(order), asks)
    decreases |order|
  {
    if order != [] {
      var before, id := order[..|order| - 1], order[|order| - 1];
      assert order == before + [id] && id in order;
      AskedInOrderIsAsking(pfds, index, listenerFd, ends, asks, before);
      AskingMore(pfds, AskedInOrder(pfds, index, ends, asks, before), index, listenerFd, ends, AsSet(before), asks, id);
      assert AsSet(order) == AsSet(before) + {id};
    }
  }

  lemma OrderGrows(all: set<nat>, todo: set<nat>, order: seq<nat>, id: nat)
    requires todo <= all && AsSet(order) == all - todo && id in todo
    ensures todo - {id} <= all && AsSet(order + [id]) == all - (todo - {id}) && |todo - {id}| < |todo|
    ensures (forall i <- order :: i in all) && (forall i <- order + [id] :: i in all)
    ensures (order + [id])[..|order|] == order
  {
    forall i <- order ensures i in all {
      assert i in AsSet(order);
    }
    assert AsSet(order + [id]) == AsSet(order) + {id};
  }

  class PollTable {
    const listenerFd: nat
    var pfds: seq<PollFd>
    var index: map<nat, nat>
    var ends: map<nat, Ends>

    ghost predicate Valid()
      reads this
    {
      Bijective(pfds, index) && Distinct(listenerFd, ends) && Covers(index, listenerFd, ends)
    }

    /** The listener is polled for connections from the start. */
    constructor (listener: nat)
      ensures Valid() && listenerFd == listener && ends == map[]
      ensures pfds == [PollFd(listener, Flags(true, true, false, false), NO_FLAGS)]
    {
      listenerFd, pfds, index, ends := listener, [], map[], map[];
      new;
      AddSocketToPoll(listener, Flags(true, true, false, false));
    }

    ghost function Entry(fd: nat): PollFd
      requires Valid() && fd in index
      reads this
    {
      pfds[index[fd]]
    }

    ghost predicate AsksFor(id: nat, asks: map<nat, (Flags, Flags)>)
      requires Valid() && id in ends && id in asks
      reads this
    {
      Entry(ends[id].client).events == asks[id].0 && Entry(ends[id].server).events == asks[id].1
    }

    method SetAskedInOrder(asks: map<nat, (Flags, Flags)>) returns (ghost order: seq<nat>)
      requires Bijective(pfds, index) && asks.Keys == ends.Keys
      requires forall id <- ends :: ends[id].client in index && ends[id].server in index
      modifies this`pfds
      ensures (forall id <- order :: id in ends) && AsSet(order) == ends.Keys
      ensures pfds == AskedInOrder(old(pfds), index, ends, asks, order)
    {
      var todo := ends.Keys;
      order := [];
      while todo != {}
        invariant todo <= ends.Keys && AsSet(order) == ends.Keys - todo && forall id <- order :: id in ends
        invariant pfds == AskedInOrder(old(pfds), index, ends, asks, order)
        decreases |todo|
      {
        var id :| id in todo;
        OrderGrows(ends.Keys, todo, order, id);
        pfds := WithAsked(pfds, index, ends[id], asks[id]);
        order, todo := order + [id], todo - {id};
      }
    }

    /** Sets what is asked of each connection's two descriptors, and nothing else. */
    method SetAsked(asks: map<nat, (Flags, Flags)>)
      requires Valid() && asks.Keys == ends.Keys
      modifies this`pfds
      ensures Valid() && |pfds| == |old(pfds)|
      ensures forall id <- ends :: AsksFor(id, asks)
      ensures forall i :: 0 <= i < |pfds| ==> pfds[i] == old(pfds)[i].(events := pfds[i].events)
      ensures Entry(listenerFd) == old(Entry(listenerFd))
    {
      ghost var order := SetAskedInOrder(asks);
      AskedInOrderIsAsking(old(pfds), index, listenerFd, ends, asks, order);
    }

    /** poll(2): every entry gets what the system reports of it. */
    method Poll(report: (nat, Flags) -> Flags)
      requires Valid()
      modifies this`pfds
      ensures Valid() && |pfds| == |old(pfds)|
      ensures forall i :: 0 <= i < |pfds| ==> pfds[i] == old(pfds)[i].(revents := report(old(pfds)[i].fd, old(pfds)[i].events))
      ensures forall fd <- index :: Entry(fd) == old(Entry(fd)).(revents := report(fd, old(Entry(fd)).events))
    {
      pfds := seq(|pfds|, i requires 0 <= i < |pfds| reads this => pfds[i].(revents := report(pfds[i].fd, pfds[i].events)));
    }

    /** Asserts that the descriptor is not polled yet. */
    method AddSocketToPoll(fd: nat, events: Flags)
      requires Bijective(pfds, index) && fd !in index
      modifies this`pfds, this`index
      ensures Bijective(pfds, index)
      ensures pfds == old(pfds) + [PollFd(fd, events, NO_FLAGS)] && index == old(index)[fd := |old(pfds)|]
    {
      pfds := pfds + [PollFd(fd, events, NO_FLAGS)];
      index := index[fd := |pfds| - 1];
    }

    /** Accepts a client and connects to the server on its behalf. Either may fail; the descriptors are
        not in use, though the system may have given them out before. */
    method OpenConnection(id: nat, accepted: Option<nat>, connected: Option<nat>) returns (ok: bool)
      requires Valid() && id !in ends
      requires accepted.Some? ==> listenerFd < accepted.value && accepted.value !in index
      requires connected.Some? ==> listenerFd < connected.value && connected.value !in index
      requires accepted.Some? && connected.Some? ==> accepted.value != connected.value
      modifies this`pfds, this`index, this`ends
      ensures Valid() && ok == (accepted.Some? && connected.Some?)
      ensures !ok ==> pfds == old(pfds) && index == old(index) && ends == old(ends)
      ensures ok ==>
        && ends == old(ends)[id := Ends(accepted.value, connected.value)]
        && pfds == old(pfds) + [PollFd(accepted.value, NO_FLAGS, NO_FLAGS), PollFd(connected.value, NO_FLAGS, NO_FLAGS)]
    {
      if accepted.None? || connected.None? {
        return false;
      }
      ghost var was := index;
      ends := ends[id := Ends(accepted.value, connected.value)];
      AddSocketToPoll(accepted.value, NO_FLAGS);
      AddSocketToPoll(connected.value, NO_FLAGS);
      DistinctAdded(was, listenerFd, old(ends), id, ends[id]);
      CoversAdded(was, index, listenerFd, old(ends), id, ends[id]);
      return true;
    }

    /** Takes the descriptors of the given connections out of the index. */
    method Unindex(ids: seq<nat>)
      requires Distinct(listenerFd, ends) && Covers(index, listenerFd, ends)
      requires (forall id <- ids :: id in ends) && (forall i, j :: 0 <= i < j < |ids| ==> ids[i] != ids[j])
      modifies this`index, this`ends
      ensures Distinct(listenerFd, ends) && Covers(index, listenerFd, ends)
      ensures Removed(old(index), old(ends), ids, index, ends)
    {
      for i := 0 to |ids|
        invariant Distinct(listenerFd, ends) && Covers(index, listenerFd, ends)
        invariant Removed(old(index), old(ends), ids[..i], index, ends)
      {
        var id := ids[i];
        assert id in old(ends) && id !in ids[..i] by {
          assert id in ids;
        }
        OneLess(listenerFd, old(index), old(ends), ids, i, index, ends);
        index, ends := index - {ends[id].client, ends[id].server}, ends - {id};
      }
      assert ids[..|ids|] == ids;
    }

    /** Closes a set of connections: exactly their descriptors go, the others are renumbered without gaps
        or duplicates, and their poll entries stay as they are. */
    method CloseConnections(ids: seq<nat>)
      requires Valid() && (forall id <- ids :: id in ends) && (forall i, j :: 0 <= i < j < |ids| ==> ids[i] != ids[j])
      modifies this`pfds, this`index, this`ends
      ensures Valid()
      ensures ends == old(ends) - AsSet(ids)
      ensures forall fd :: fd in index <==> fd in old(index) && !EndOf(old(ends), ids, fd)
      ensures forall fd <- index :: index[fd] < |pfds| && old(index)[fd] < |old(pfds)| && pfds[index[fd]] == old(pfds)[old(index)[fd]]
    {
      Unindex(ids);
      ghost var kept := index;
      pfds, index := Compact(pfds, index);
      assert kept.Keys == index.Keys;
    }
  }
}
