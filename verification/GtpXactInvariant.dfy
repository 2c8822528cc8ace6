/** What every step of a peer keeps. */
module GtpXactInvariant {
  import opened Wrappers
  import opened GtpMessages
  import opened GtpXactModel

  /** The steps a transaction transmits itself; it receives the others. */
  predicate OwnStep(org: Originator, i: nat) {
    if org.Local? then i == 0 || i == 2 else i == 1
  }

  predicate StageAt(i: nat, stage: Stage) {
    if i == 0 then stage.Initial? else if i == 1 then stage.Intermediate? || stage.Final? else stage.Final?
  }

  /** Slots below `step` are filled, with a packet exactly at the transaction's own steps. */
  predicate SlotOk(x: Xact, i: nat)
    requires i < 3
  {
    var slot := x.slots[i];
    if x.step <= i then slot == EMPTY
    else
      && StageAt(i, StageOf(slot.kind, x.xid))
      && (slot.packet.Some? <==> OwnStep(x.org, i))
      && (slot.packet.Some? ==> slot.packet.value.kind == slot.kind && slot.packet.value.sqn == XidToSqn(x.xid))
  }

  /** An armed response timer waits for the answer to the transaction's own last message. */
  predicate TimersOk(x: Xact) {
    && 1 <= x.responseCount <= T3_RESPONSE_RETRIES
    && x.holdingCount == T3_DUPLICATED_RETRIES
    && (x.response.Some? ==>
          if x.org.Local? then x.step == 1
          else x.step == 2 && StageOf(x.slots[1].kind, x.xid).Intermediate?)
    && (x.org.Remote? ==> x.holding.Some?)
    && (x.org.Local? && x.holding.Some? ==> 2 <= x.step)
  }

  predicate XactOk(x: Xact) {
    && 1 <= x.step <= 3
    && SlotOk(x, 0) && SlotOk(x, 1) && SlotOk(x, 2)
    && TimersOk(x)
  }

  ghost predicate SlotsOk(s: State) {
    forall r :: r in s.xacts ==> XactOk(s.xacts[r])
  }

  /** Every pool slot is either free, once, or live. */
  ghost predicate PoolOk(s: State) {
    && NoDuplicates(s.free)
    && (forall r :: r in s.free ==> r !in s.xacts)
    && (forall r :: 1 <= r <= s.size <==> r in s.free || r in s.xacts)
  }

  predicate OnList(s: State, node: NodeId, org: Originator, r: Ref) {
    node in s.nodes && r in ListOf(s, node, org)
  }

  predicate BelongsOn(s: State, node: NodeId, org: Originator, r: Ref) {
    r in s.xacts && s.xacts[r].node == node && s.xacts[r].org == org
  }

  /** A live transaction is on the list of its node and originator, once, and on no other. */
  ghost predicate ListsOk(s: State) {
    && (forall r :: r in s.xacts ==> s.xacts[r].node in s.nodes)
    && (forall node, org, r :: node in s.nodes ==> (OnList(s, node, org, r) <==> BelongsOn(s, node, org, r)))
    && (forall node, org :: node in s.nodes ==> NoDuplicates(ListOf(s, node, org)))
  }

  predicate Paired(s: State, a: Ref, b: Ref) {
    a in s.xacts && s.xacts[a].partner == Some(b)
  }

  /** Association is a symmetric matching of live transactions. */
  ghost predicate Matched(s: State) {
    forall a, b :: Paired(s, a, b) ==> Paired(s, b, a)
  }

  predicate IsRemote(s: State, r: Ref) {
    r in s.xacts && s.xacts[r].org.Remote?
  }

  /** No remote list holds two transactions with one identifier. */
  ghost predicate RemoteUnique(s: State) {
    forall a, b :: IsRemote(s, a) && IsRemote(s, b) && a != b && s.xacts[a].node == s.xacts[b].node ==>
      s.xacts[a].xid != s.xacts[b].xid
  }

  predicate Holds(s: State, r: Ref, i: nat) {
    r in s.xacts && i < 3 && s.xacts[r].slots[i].packet.Some?
  }

  function IdAt(s: State, r: Ref, i: nat): nat
    requires Holds(s, r, i)
  {
    s.xacts[r].slots[i].packet.value.id
  }

  /** Each buffer handed in is held by one slot of one live transaction or was freed once, not both. */
  ghost predicate PacketsOk(s: State) {
    && (forall r, i :: Holds(s, r, i) ==> IdAt(s, r, i) in s.given && IdAt(s, r, i) !in s.freed)
    && (forall r, i, q, j :: Holds(s, r, i) && Holds(s, q, j) && IdAt(s, r, i) == IdAt(s, q, j) ==> r == q && i == j)
    && NoDuplicates(s.freed)
    && (forall id :: id in s.freed ==> id in s.given)
    && (forall id :: id in s.given ==> id in s.freed || exists r, i :: Holds(s, r, i) && IdAt(s, r, i) == id)
  }

  /** The identifier of the n-th local creation. */
  function NthId(n: nat): Xid {
    if n == 0 then 0 else (n - 1) % MAX_XACT_ID + 1
  }

  ghost predicate IdsOk(s: State) {
    && s.lastId == NthId(s.created)
    && (forall r :: r in s.births ==> r in s.xacts && s.xacts[r].org.Local?)
    && (forall r :: r in s.xacts && s.xacts[r].org.Local? ==>
          r in s.births && 1 <= s.births[r] <= s.created && s.xacts[r].xid == NthId(s.births[r]))
    && (forall a, b :: a in s.births && b in s.births && a != b ==> s.births[a] != s.births[b])
  }

  ghost predicate SentOk(s: State) {
    forall i :: 0 <= i < |s.sent| ==> s.sent[i].time <= s.now
  }

  ghost predicate Inv(s: State) {
    SlotsOk(s) && PoolOk(s) && ListsOk(s) && Matched(s) && RemoteUnique(s) && PacketsOk(s) && IdsOk(s) && SentOk(s)
  }

  // ---- single transactions

  lemma UpdateTxOk(x: Xact, kind: Kind, teid: nat, buffer: Buffer)
    requires XactOk(x) || (x.org.Local? && x == FreshXact(Local, x.xid, x.node))
    requires UpdateTx(x, kind, teid, buffer).Done?
    ensures XactOk(UpdateTx(x, kind, teid, buffer).value)
    ensures OwnStep(x.org, x.step)
  {
  }

  lemma UpdateRxOk(x: Xact, kind: Kind, now: Time)
    requires XactOk(x) || (x.org.Remote? && x == FreshXact(Remote, x.xid, x.node))
    requires UpdateRx(x, kind, now).Done?
    ensures XactOk(UpdateRx(x, kind, now).value.x)
    ensures x.step == 0 ==> UpdateRx(x, kind, now).value.Accepted? && StageOf(kind, x.xid).Initial?
    ensures forall i :: 0 <= i < 3 ==> UpdateRx(x, kind, now).value.x.slots[i].packet == x.slots[i].packet
  {
  }

  lemma CommitOk(x: Xact, now: Time)
    requires XactOk(x)
    requires CommitXact(x, now).Done? && CommitXact(x, now).value.Transmit?
    ensures XactOk(CommitXact(x, now).value.x)
  {
  }

  // ---- changes of the tables

  predicate SamePlace(x: Xact, y: Xact) {
    x.org == y.org && x.xid == y.xid && x.node == y.node
  }

  predicate SamePackets(x: Xact, y: Xact) {
    forall i :: 0 <= i < 3 ==> x.slots[i].packet == y.slots[i].packet
  }

  /** The transactions may have moved on, but not changed place. */
  ghost predicate SamePlaces(s: State, t: State) {
    && t.size == s.size && t.free == s.free && t.nodes == s.nodes
    && t.lastId == s.lastId && t.created == s.created && t.births == s.births
    && t.xacts.Keys == s.xacts.Keys
    && forall r :: r in s.xacts ==> SamePlace(t.xacts[r], s.xacts[r])
  }

  lemma SamePlacesKeepLists(s: State, t: State)
    requires SamePlaces(s, t) && ListsOk(s) && PoolOk(s)
    ensures ListsOk(t) && PoolOk(t)
  {
    assert forall node, org, r :: OnList(t, node, org, r) <==> OnList(s, node, org, r);
    assert forall node, org, r :: BelongsOn(t, node, org, r) <==> BelongsOn(s, node, org, r);
    forall node, org | node in t.nodes
      ensures NoDuplicates(ListOf(t, node, org))
    {
      assert ListOf(t, node, org) == ListOf(s, node, org);
    }
  }

  lemma SamePlacesKeepIds(s: State, t: State)
    requires SamePlaces(s, t) && RemoteUnique(s) && IdsOk(s)
    ensures RemoteUnique(t) && IdsOk(t)
  {
    assert forall r :: IsRemote(t, r) <==> IsRemote(s, r);
  }

  lemma SamePacketsKeep(s: State, t: State)
    requires PacketsOk(s) && t.given == s.given && t.freed == s.freed
    requires t.xacts.Keys == s.xacts.Keys && forall r :: r in s.xacts ==> SamePackets(t.xacts[r], s.xacts[r])
    ensures PacketsOk(t)
  {
    assert forall r, i :: Holds(t, r, i) <==> Holds(s, r, i);
    assert forall r, i :: Holds(t, r, i) ==> IdAt(t, r, i) == IdAt(s, r, i);
    forall id | id in t.given
      ensures id in t.freed || exists r, i :: Holds(t, r, i) && IdAt(t, r, i) == id
    {
      if id !in s.freed {
        var r, i :| Holds(s, r, i) && IdAt(s, r, i) == id;
        assert Holds(t, r, i) && IdAt(t, r, i) == id;
      }
    }
  }

  lemma SamePartnersKeep(s: State, t: State)
    requires Matched(s) && t.xacts.Keys == s.xacts.Keys
    requires forall r :: r in s.xacts ==> t.xacts[r].partner == s.xacts[r].partner
    ensures Matched(t)
  {
    assert forall a, b :: Paired(t, a, b) <==> Paired(s, a, b);
  }

  lemma PutKeepsTables(s: State, r: Ref, x: Xact)
    requires Inv(s) && r in s.xacts && SamePlace(x, s.xacts[r]) && x.partner == s.xacts[r].partner && XactOk(x)
    ensures var t := Put(s, r, x);
      SlotsOk(t) && PoolOk(t) && ListsOk(t) && Matched(t) && RemoteUnique(t) && IdsOk(t) && SentOk(t)
  {
    hide XactOk, PoolOk, ListsOk, Matched, RemoteUnique, PacketsOk, IdsOk;
    var t := Put(s, r, x);
    assert SamePlaces(s, t);
    SamePlacesKeepLists(s, t);
    SamePlacesKeepIds(s, t);
    SamePartnersKeep(s, t);
  }

  lemma PutKeeps(s: State, r: Ref, x: Xact)
    requires Inv(s) && r in s.xacts && SamePlace(x, s.xacts[r]) && x.partner == s.xacts[r].partner && XactOk(x)
    requires SamePackets(x, s.xacts[r])
    ensures Inv(Put(s, r, x))
  {
    hide XactOk, PoolOk, ListsOk, Matched, RemoteUnique, PacketsOk, IdsOk, SentOk;
    PutKeepsTables(s, r, x);
    SamePacketsKeep(s, Put(s, r, x));
  }

  lemma SendKeeps(s: State, node: NodeId, packet: Packet)
    requires Inv(s)
    ensures Inv(Send(s, node, packet))
  {
    var t := Send(s, node, packet);
    SamePlacesKeepLists(s, t);
    SamePlacesKeepIds(s, t);
    SamePartnersKeep(s, t);
    SamePacketsKeep(s, t);
  }

  /** A new packet of the transaction, never seen before, joins the history. */
  lemma NewPacketKeeps(s: State, t: State, r: Ref, k: nat)
    requires PacketsOk(s) && k < 3 && !Holds(s, r, k) && Holds(t, r, k)
    requires IdAt(t, r, k) !in s.given
    requires forall q, i :: (q != r || i != k) ==> (Holds(t, q, i) <==> Holds(s, q, i))
    requires forall q, i :: (q != r || i != k) && Holds(t, q, i) ==> IdAt(t, q, i) == IdAt(s, q, i)
    requires t.given == s.given + {IdAt(t, r, k)} && t.freed == s.freed
    ensures PacketsOk(t)
  {
    forall id | id in t.given
      ensures id in t.freed || exists q, i :: Holds(t, q, i) && IdAt(t, q, i) == id
    {
      if id in s.given && id !in s.freed {
        var q, i :| Holds(s, q, i) && IdAt(s, q, i) == id;
        assert Holds(t, q, i) && IdAt(t, q, i) == id;
      }
    }
  }

  // ---- creation

  /** A transaction updated after its insertion is inserted as updated. */
  lemma InsertThenPut(s: State, x: Xact, y: Xact)
    requires s.free != [] && x.node in s.nodes && SamePlace(x, y)
    ensures Put(Insert(s, x), s.free[0], y) == Insert(s, y)
  {
    assert s.xacts[s.free[0] := x][s.free[0] := y] == s.xacts[s.free[0] := y];
  }

  lemma FreeIsNotLive(s: State)
    requires Inv(s) && s.free != []
    ensures s.free[0] !in s.xacts
  {
    hide XactOk, ListsOk, Matched, RemoteUnique, PacketsOk, IdsOk, SentOk, SlotsOk;
    assert s.free[0] in s.free;
  }

  lemma InsertKeepsLists(s: State, x: Xact)
    requires s.free != [] && x.node in s.nodes && PoolOk(s) && ListsOk(s)
    ensures PoolOk(Insert(s, x)) && ListsOk(Insert(s, x))
  {
    var t := Insert(s, x);
    var r := s.free[0];
    assert r in s.free;
    assert s.free == [r] + t.free;
    assert forall q :: q in s.free <==> q == r || q in t.free;
    assert r !in t.free;
    forall node, org, q | node in t.nodes
      ensures OnList(t, node, org, q) <==> BelongsOn(t, node, org, q)
    {
      assert OnList(s, node, org, q) <==> BelongsOn(s, node, org, q);
    }
    forall node, org | node in t.nodes
      ensures NoDuplicates(ListOf(t, node, org))
    {
      assert NoDuplicates(ListOf(s, node, org));
      assert !OnList(s, node, org, r);
    }
  }

  /** A slot taken for a new transaction that has no partner. */
  lemma InsertKeepsMatched(s: State, x: Xact)
    requires s.free != [] && x.node in s.nodes && PoolOk(s) && Matched(s) && x.partner.None?
    ensures Matched(Insert(s, x))
  {
    assert s.free[0] in s.free;
    assert forall a, b :: Paired(Insert(s, x), a, b) <==> Paired(s, a, b);
  }

  lemma InsertLocalKeepsIds(s: State, t: State, x: Xact)
    requires IdsOk(s) && RemoteUnique(s) && s.free != [] && s.free[0] !in s.xacts
    requires x.org.Local? && x.xid == NextId(s.lastId)
    requires t.xacts == s.xacts[s.free[0] := x] && t.created == s.created + 1 && t.lastId == x.xid
    requires t.births == s.births[s.free[0] := t.created]
    ensures IdsOk(t) && RemoteUnique(t)
  {
    InsertLocalKeepsRemotes(s, t, x);
    hide RemoteUnique, NextId, NthId;
    NthIdNext(s.created);
  }

  lemma InsertLocalKeepsRemotes(s: State, t: State, x: Xact)
    requires RemoteUnique(s) && s.free != [] && s.free[0] !in s.xacts
    requires x.org.Local? && t.xacts == s.xacts[s.free[0] := x]
    ensures RemoteUnique(t)
  {
    assert forall q :: IsRemote(t, q) <==> IsRemote(s, q);
  }

  lemma NthIdNext(n: nat)
    ensures NthId(n + 1) == NextId(NthId(n))
  {
    if n != 0 {
      assert n % MAX_XACT_ID == if (n - 1) % MAX_XACT_ID == MAX_XACT_ID - 1 then 0 else (n - 1) % MAX_XACT_ID + 1;
    }
  }

  lemma LocalCreateKeeps(s: State, node: NodeId, kind: Kind, teid: nat, buffer: Buffer)
    requires Inv(s) && node in s.nodes && buffer.id !in s.given
    requires LocalCreate(s, node, kind, teid, buffer).Done?
    ensures Inv(LocalCreate(s, node, kind, teid, buffer).value)
  {
    hide XactOk, Matched, RemoteUnique, PacketsOk, IdsOk;
    var t := LocalCreate(s, node, kind, teid, buffer).value;
    var x := LocalCreateShape(s, node, kind, teid, buffer);
    assert s.free[0] in s.free;
    LocalCreateKeepsTables(s, t, x);
    InsertLocalKeepsIds(s, t, x);
    LocalCreateKeepsPackets(s, t, x);
    NewXactKeepsSlots(s, t, s.free[0], x);
  }

  lemma LocalCreateShape(s: State, node: NodeId, kind: Kind, teid: nat, buffer: Buffer) returns (x: Xact)
    requires node in s.nodes && LocalCreate(s, node, kind, teid, buffer).Done?
    ensures s.free != [] && XactOk(x)
    ensures x == Xact(Local, NextId(s.lastId), node, 1,
                      [Slot(kind, Some(HeaderOn(buffer, kind, teid, NextId(s.lastId)))), EMPTY, EMPTY],
                      None, T3_RESPONSE_RETRIES, None, T3_DUPLICATED_RETRIES, None)
    ensures LocalCreate(s, node, kind, teid, buffer).value ==
      Insert(s.(lastId := x.xid, created := s.created + 1, births := s.births[s.free[0] := s.created + 1],
                given := s.given + {buffer.id}), x)
    ensures StageOf(kind, x.xid).Initial?
  {
    x := UpdateTx(FreshXact(Local, NextId(s.lastId), node), kind, teid, buffer).value;
    UpdateTxOk(FreshXact(Local, NextId(s.lastId), node), kind, teid, buffer);
  }

  lemma NewXactKeepsSlots(s: State, t: State, r: Ref, x: Xact)
    requires SlotsOk(s) && XactOk(x) && t.xacts == s.xacts[r := x]
    ensures SlotsOk(t)
  {
  }

  lemma LocalCreateKeepsPackets(s: State, t: State, x: Xact)
    requires PacketsOk(s) && s.free != [] && s.free[0] !in s.xacts
    requires t.xacts == s.xacts[s.free[0] := x] && t.freed == s.freed
    requires x.slots[0].packet.Some? && x.slots[1].packet.None? && x.slots[2].packet.None?
    requires x.slots[0].packet.value.id !in s.given && t.given == s.given + {x.slots[0].packet.value.id}
    ensures PacketsOk(t)
  {
    NewPacketKeeps(s, t, s.free[0], 0);
  }

  lemma LocalCreateKeepsTables(s: State, t: State, x: Xact)
    requires PoolOk(s) && ListsOk(s) && Matched(s) && s.free != [] && x.node in s.nodes && x.partner.None?
    requires t == Insert(s.(lastId := t.lastId, created := t.created, births := t.births, given := t.given), x)
    ensures PoolOk(t) && ListsOk(t) && Matched(t)
  {
    var u := Insert(s, x);
    InsertKeepsLists(s, x);
    InsertKeepsMatched(s, x);
    assert forall n, org, q :: OnList(t, n, org, q) <==> OnList(u, n, org, q);
    assert forall n, org, q :: BelongsOn(t, n, org, q) <==> BelongsOn(u, n, org, q);
    assert forall n, org :: n in u.nodes ==> ListOf(t, n, org) == ListOf(u, n, org);
    assert forall a, b :: Paired(t, a, b) <==> Paired(u, a, b);
  }

  lemma InsertRemoteKeepsIds(s: State, x: Xact)
    requires IdsOk(s) && RemoteUnique(s) && s.free != [] && s.free[0] !in s.xacts
    requires x.org.Remote? && x.node in s.nodes
    requires forall r :: BelongsOn(s, x.node, Remote, r) ==> s.xacts[r].xid != x.xid
    ensures IdsOk(Insert(s, x)) && RemoteUnique(Insert(s, x))
  {
    var t := Insert(s, x);
    var r := s.free[0];
    forall a, b | IsRemote(t, a) && IsRemote(t, b) && a != b && t.xacts[a].node == t.xacts[b].node
      ensures t.xacts[a].xid != t.xacts[b].xid
    {
      assert a != r ==> IsRemote(s, a) && (b == r ==> BelongsOn(s, x.node, Remote, a));
      assert b != r ==> IsRemote(s, b) && (a == r ==> BelongsOn(s, x.node, Remote, b));
    }
  }

  lemma InsertRemoteKeepsPackets(s: State, x: Xact)
    requires PacketsOk(s) && s.free != [] && s.free[0] !in s.xacts && x.node in s.nodes
    requires forall i :: 0 <= i < 3 ==> x.slots[i].packet.None?
    ensures PacketsOk(Insert(s, x))
  {
    var t := Insert(s, x);
    assert forall r, i :: Holds(t, r, i) <==> Holds(s, r, i);
    assert forall r, i :: Holds(t, r, i) ==> IdAt(t, r, i) == IdAt(s, r, i);
    forall id | id in t.given
      ensures id in t.freed || exists r, i :: Holds(t, r, i) && IdAt(t, r, i) == id
    {
      if id !in s.freed {
        var r, i :| Holds(s, r, i) && IdAt(s, r, i) == id;
        assert Holds(t, r, i) && IdAt(t, r, i) == id;
      }
    }
  }

  lemma RemoteCreateKeeps(s: State, x: Xact)
    requires Inv(s) && s.free != [] && x.node in s.nodes && x.org.Remote? && x.partner.None? && XactOk(x)
    requires forall i :: 0 <= i < 3 ==> x.slots[i].packet.None?
    requires forall r :: BelongsOn(s, x.node, Remote, r) ==> s.xacts[r].xid != x.xid
    ensures Inv(Insert(s, x))
  {
    hide XactOk, Matched, RemoteUnique, PacketsOk, IdsOk;
    assert s.free[0] in s.free;
    InsertKeepsLists(s, x);
    InsertKeepsMatched(s, x);
    InsertRemoteKeepsIds(s, x);
    InsertRemoteKeepsPackets(s, x);
  }

  // ---- association and deletion

  lemma PartnersKeep(s: State, t: State)
    requires Inv(s) && Matched(t)
    requires t.xacts.Keys == s.xacts.Keys && t == s.(xacts := t.xacts)
    requires forall r :: r in s.xacts ==> t.xacts[r] == s.xacts[r].(partner := t.xacts[r].partner)
    ensures Inv(t)
  {
    hide XactOk, PoolOk, ListsOk, Matched, RemoteUnique, PacketsOk, IdsOk, SlotsOk;
    SamePlacesKeepLists(s, t);
    SamePlacesKeepIds(s, t);
    SamePacketsKeep(s, t);
    PartnersKeepSlots(s, t);
  }

  lemma PartnersKeepSlots(s: State, t: State)
    requires SlotsOk(s) && t.xacts.Keys == s.xacts.Keys
    requires forall r :: r in s.xacts ==> t.xacts[r] == s.xacts[r].(partner := t.xacts[r].partner)
    ensures SlotsOk(t)
  {
    forall r | r in t.xacts
      ensures XactOk(t.xacts[r])
    {
      assert XactOk(s.xacts[r]);
    }
  }

  lemma LinkMatches(s: State, a: Ref, b: Ref)
    requires Matched(s) && a in s.xacts && b in s.xacts && Link(s, a, b).Done?
    ensures Matched(Link(s, a, b).value)
  {
    var t := Link(s, a, b).value;
    assert forall p, q :: Paired(t, p, q) <==> Paired(s, p, q) || (p == a && q == b) || (p == b && q == a);
  }

  lemma LinkKeeps(s: State, a: Ref, b: Ref)
    requires Inv(s) && a in s.xacts && b in s.xacts && Link(s, a, b).Done?
    ensures Inv(Link(s, a, b).value)
  {
    hide XactOk, PoolOk, ListsOk, Matched, RemoteUnique, PacketsOk, IdsOk, SlotsOk;
    LinkMatches(s, a, b);
    PartnersKeep(s, Link(s, a, b).value);
  }

  lemma UnlinkMatches(s: State, a: Ref, b: Ref)
    requires Matched(s) && Paired(s, a, b)
    ensures Unlink(s, a, b).Done? && Matched(Unlink(s, a, b).value)
  {
    assert Paired(s, b, a);
    var t := Unlink(s, a, b).value;
    assert forall p, q :: Paired(t, p, q) <==> Paired(s, p, q) && p != a && p != b;
  }

  lemma UnlinkKeeps(s: State, a: Ref, b: Ref)
    requires Inv(s) && Paired(s, a, b)
    ensures Unlink(s, a, b).Done? && Inv(Unlink(s, a, b).value)
  {
    hide XactOk, PoolOk, ListsOk, Matched, RemoteUnique, PacketsOk, IdsOk, SlotsOk;
    UnlinkMatches(s, a, b);
    PartnersKeep(s, Unlink(s, a, b).value);
  }

  lemma HeldByIs(slots: History)
    ensures HeldBy(slots) ==
      (if slots[0].packet.Some? then [slots[0].packet.value.id] else []) +
      (if slots[1].packet.Some? then [slots[1].packet.value.id] else []) +
      (if slots[2].packet.Some? then [slots[2].packet.value.id] else [])
  {
    assert slots[1..][1..] == [slots[2]];
    assert slots[2..] == [slots[2]];
    assert HeldBy([slots[2]]) == (if slots[2].packet.Some? then [slots[2].packet.value.id] else []) + HeldBy([]);
  }

  lemma ReleaseKeepsLists(s: State, r: Ref)
    requires PoolOk(s) && ListsOk(s) && r in s.xacts
    ensures PoolOk(Release(s, r)) && ListsOk(Release(s, r))
  {
    var t := Release(s, r);
    forall node, org, q | node in t.nodes
      ensures OnList(t, node, org, q) <==> BelongsOn(t, node, org, q)
    {
      assert OnList(s, node, org, q) <==> BelongsOn(s, node, org, q);
    }
    forall node, org | node in t.nodes
      ensures NoDuplicates(ListOf(t, node, org))
    {
      assert NoDuplicates(ListOf(s, node, org));
    }
  }

  /** The identifiers released with `r` are those of its slots, all different. */
  lemma HeldBySlots(s: State, r: Ref)
    requires r in s.xacts
    requires forall i, j :: Holds(s, r, i) && Holds(s, r, j) && IdAt(s, r, i) == IdAt(s, r, j) ==> i == j
    ensures forall id :: id in HeldBy(s.xacts[r].slots) <==> exists i :: Holds(s, r, i) && IdAt(s, r, i) == id
    ensures NoDuplicates(HeldBy(s.xacts[r].slots))
  {
    var slots := s.xacts[r].slots;
    HeldByIs(slots);
    assert forall i :: 0 <= i < 3 && slots[i].packet.Some? ==> Holds(s, r, i) && IdAt(s, r, i) == slots[i].packet.value.id;
    assert forall i :: Holds(s, r, i) ==> i == 0 || i == 1 || i == 2;
  }

  lemma NoDuplicatesAppend<T>(a: seq<T>, b: seq<T>)
    requires NoDuplicates(a) && NoDuplicates(b) && forall x | x in b :: x !in a
    ensures NoDuplicates(a + b)
  {
    forall i, j | 0 <= i < j < |a + b|
      ensures (a + b)[i] != (a + b)[j]
    {
      if i < |a| <= j {
        assert a[i] in a && b[j - |a|] in b;
      }
    }
  }

  lemma ReleaseKeepsPackets(s: State, r: Ref)
    requires PacketsOk(s) && LiveRef(s, r)
    ensures PacketsOk(Release(s, r))
  {
    var t := Release(s, r);
    var held := HeldBy(s.xacts[r].slots);
    HeldBySlots(s, r);
    NoDuplicatesAppend(s.freed, held);
    assert forall q, i :: Holds(t, q, i) <==> q != r && Holds(s, q, i);
    assert forall q, i :: Holds(t, q, i) ==> IdAt(t, q, i) == IdAt(s, q, i);
    forall id | id in t.given
      ensures id in t.freed || exists q, i :: Holds(t, q, i) && IdAt(t, q, i) == id
    {
      if id !in s.freed {
        var q, i :| Holds(s, q, i) && IdAt(s, q, i) == id;
        if q != r {
          assert Holds(t, q, i) && IdAt(t, q, i) == id;
        }
      }
    }
  }

  lemma ReleaseKeepsIds(s: State, r: Ref)
    requires LiveRef(s, r) && RemoteUnique(s) && IdsOk(s)
    ensures RemoteUnique(Release(s, r)) && IdsOk(Release(s, r))
  {
    var t := Release(s, r);
    assert forall q :: IsRemote(t, q) <==> q != r && IsRemote(s, q);
  }

  lemma ReleaseKeeps(s: State, r: Ref)
    requires Inv(s) && r in s.xacts && s.xacts[r].partner.None?
    ensures Inv(Release(s, r))
  {
    hide XactOk, PoolOk, Matched, RemoteUnique, PacketsOk, IdsOk, SlotsOk;
    ReleaseKeepsLists(s, r);
    ReleaseKeepsPackets(s, r);
    ReleaseKeepsIds(s, r);
    ReleaseKeepsMatched(s, r);
    ReleaseKeepsSlots(s, r);
  }

  lemma ReleaseKeepsMatched(s: State, r: Ref)
    requires LiveRef(s, r) && Matched(s) && s.xacts[r].partner.None?
    ensures Matched(Release(s, r))
  {
    assert forall a, b :: Paired(s, a, b) && b == r ==> Paired(s, r, a);
    assert forall a, b :: Paired(Release(s, r), a, b) <==> a != r && Paired(s, a, b);
  }

  lemma ReleaseKeepsSlots(s: State, r: Ref)
    requires LiveRef(s, r) && SlotsOk(s)
    ensures SlotsOk(Release(s, r))
  {
  }

  /** Deleting a live transaction never fails an assertion. */
  lemma DeleteKeeps(s: State, r: Ref)
    requires Inv(s) && r in s.xacts
    ensures LiveRef(s, r) && Delete(s, r).Done? && Inv(Delete(s, r).value)
  {
    hide XactOk, Matched, RemoteUnique, PacketsOk, IdsOk;
    if s.xacts[r].partner.Some? {
      var p := s.xacts[r].partner.value;
      assert Paired(s, r, p);
      UnlinkKeeps(s, r, p);
      ReleaseKeeps(Unlink(s, r, p).value, r);
    } else {
      ReleaseKeeps(s, r);
    }
  }

  /** A deletion changes nothing of a surviving transaction but its partner. */
  predicate SameButPartner(x: Xact, y: Xact) {
    x == y.(partner := x.partner)
  }

  lemma DeleteShape(s: State, r: Ref)
    requires LiveRef(s, r) && Delete(s, r).Done?
    ensures var t := Delete(s, r).value;
      && t == s.(xacts := t.xacts, nodes := t.nodes, births := t.births, free := t.free, freed := t.freed)
      && t.xacts.Keys == s.xacts.Keys - {r}
      && t.nodes.Keys == s.nodes.Keys
      && t.births == s.births - {r}
      && forall q :: q in t.xacts ==> SameButPartner(t.xacts[q], s.xacts[q])
  {
  }

  lemma HeadApart<T>(refs: seq<T>)
    requires refs != [] && NoDuplicates(refs)
    ensures refs[0] !in refs[1..] && NoDuplicates(refs[1..])
    ensures forall r :: r in refs <==> r == refs[0] || r in refs[1..]
  {
  }

  lemma DeleteEachKeeps(s: State, refs: seq<Ref>)
    requires Inv(s) && NoDuplicates(refs) && forall r :: r in refs ==> r in s.xacts
    ensures DeleteEach(s, refs).Done? && Inv(DeleteEach(s, refs).value)
    ensures forall r :: r in DeleteEach(s, refs).value.xacts <==> r in s.xacts && r !in refs
    decreases |refs|
  {
    hide XactOk, PoolOk, ListsOk, Matched, RemoteUnique, PacketsOk, IdsOk, SentOk, SlotsOk;
    if refs == [] {
    } else {
      assert refs[0] in refs;
      DeleteKeeps(s, refs[0]);
      DeleteShape(s, refs[0]);
      HeadApart(refs);
      DeleteEachKeeps(Delete(s, refs[0]).value, refs[1..]);
    }
  }

  // ---- steps

  lemma AnswerKeeps(s: State, r: Ref, kind: Kind, teid: nat, buffer: Buffer)
    requires Inv(s) && r in s.xacts && buffer.id !in s.given && Answer(s, r, kind, teid, buffer).Done?
    ensures Inv(Answer(s, r, kind, teid, buffer).value)
  {
    hide PoolOk, ListsOk, Matched, RemoteUnique, PacketsOk, IdsOk;
    var t := Answer(s, r, kind, teid, buffer).value;
    AnswerShape(s, r, kind, teid, buffer);
    AnswerKeepsTables(s, t, r);
    AnswerKeepsPackets(s, t, r, s.xacts[r].step);
  }

  lemma AnswerKeepsTables(s: State, t: State, r: Ref)
    requires Inv(s) && r in s.xacts && r in t.xacts && XactOk(t.xacts[r])
    requires SamePlace(t.xacts[r], s.xacts[r]) && t.xacts[r].partner == s.xacts[r].partner
    requires t == s.(xacts := s.xacts[r := t.xacts[r]], given := t.given)
    ensures SlotsOk(t) && PoolOk(t) && ListsOk(t) && Matched(t) && RemoteUnique(t) && IdsOk(t) && SentOk(t)
  {
    hide XactOk, PoolOk, ListsOk, Matched, RemoteUnique, PacketsOk, IdsOk;
    PutKeepsTables(s, r, t.xacts[r]);
    GivenKeepsTables(Put(s, r, t.xacts[r]), t);
  }

  lemma AnswerShape(s: State, r: Ref, kind: Kind, teid: nat, buffer: Buffer)
    requires r in s.xacts && XactOk(s.xacts[r]) && Answer(s, r, kind, teid, buffer).Done?
    ensures var t := Answer(s, r, kind, teid, buffer).value;
      var x := s.xacts[r];
      && x.step < 3
      && r in t.xacts && XactOk(t.xacts[r])
      && t == s.(xacts := s.xacts[r := t.xacts[r]], given := s.given + {buffer.id})
      && t.xacts[r] == x.(step := x.step + 1, slots := t.xacts[r].slots)
      && t.xacts[r].slots == x.slots[x.step := Slot(kind, Some(HeaderOn(buffer, kind, teid, x.xid)))]
  {
    UpdateTxOk(s.xacts[r], kind, teid, buffer);
  }

  lemma GivenKeepsTables(s: State, t: State)
    requires PoolOk(s) && ListsOk(s) && Matched(s) && RemoteUnique(s) && IdsOk(s)
    requires t == s.(given := t.given)
    ensures PoolOk(t) && ListsOk(t) && Matched(t) && RemoteUnique(t) && IdsOk(t)
  {
    SamePlacesKeepLists(s, t);
    SamePlacesKeepIds(s, t);
    SamePartnersKeep(s, t);
  }

  lemma AnswerKeepsPackets(s: State, t: State, r: Ref, k: nat)
    requires PacketsOk(s) && r in s.xacts && r in t.xacts && k < 3 && SlotOk(s.xacts[r], k) && s.xacts[r].step <= k
    requires t.xacts == s.xacts[r := t.xacts[r]] && Holds(t, r, k) && IdAt(t, r, k) !in s.given
    requires t.xacts[r].slots == s.xacts[r].slots[k := t.xacts[r].slots[k]]
    requires t.given == s.given + {IdAt(t, r, k)} && t.freed == s.freed
    ensures PacketsOk(t)
  {
    NewPacketKeeps(s, t, r, k);
  }

  lemma TransmitKeeps(s: State, r: Ref, x: Xact, node: NodeId, packet: Packet)
    requires Inv(s) && r in s.xacts && SamePlace(x, s.xacts[r]) && x.partner == s.xacts[r].partner && XactOk(x)
    requires SamePackets(x, s.xacts[r])
    ensures Inv(Send(Put(s, r, x), node, packet))
  {
    hide XactOk, PoolOk, ListsOk, Matched, RemoteUnique, PacketsOk, IdsOk, SentOk, SlotsOk;
    PutKeeps(s, r, x);
    SendKeeps(Put(s, r, x), node, packet);
  }

  lemma CommitKeeps(s: State, r: Ref)
    requires Inv(s) && LiveRef(s, r) && Commit(s, r).Done?
    ensures Inv(Commit(s, r).value)
  {
    hide XactOk, PoolOk, ListsOk, Matched, RemoteUnique, PacketsOk, IdsOk, SentOk;
    match CommitXact(s.xacts[r], s.now).value
    case Discard =>
      DeleteKeeps(s, r);
    case Transmit(x, packet) =>
      CommitOk(s.xacts[r], s.now);
      TransmitKeeps(s, r, x, x.node, packet);
  }

  lemma ReceiveKeeps(s: State, node: NodeId, kind: Kind, sqn: Sqn)
    requires Inv(s) && node in s.nodes && Receive(s, node, kind, sqn).Done?
    ensures Inv(Receive(s, node, kind, sqn).value.state)
  {
    hide XactOk, PoolOk, ListsOk, Matched, RemoteUnique, PacketsOk, IdsOk, SentOk;
    var xid := SqnToXid(sqn);
    var found := FindByXid(s, node, kind, xid).value;
    var x := if found.Some? then s.xacts[found.value] else FreshXact(Remote, xid, node);
    UpdateRxOk(x, kind, s.now);
    var reception := UpdateRx(x, kind, s.now).value;
    if found.Some? {
      PutKeeps(s, found.value, reception.x);
      if reception.Duplicate? && reception.resend.Some? {
        SendKeeps(Put(s, found.value, reception.x), node, reception.resend.value);
      }
    } else {
      NotOnSearchedList(s, node, kind, xid);
      RemoteCreateKeeps(s, reception.x);
    }
  }

  /** When the search for an initial message fails, no remote transaction has its identifier. */
  lemma NotOnSearchedList(s: State, node: NodeId, kind: Kind, xid: Xid)
    requires ListsOk(s) && node in s.nodes && FindByXid(s, node, kind, xid) == Done(None)
    ensures forall r :: BelongsOn(s, node, SearchedList(kind, xid).value, r) ==> s.xacts[r].xid != xid
  {
    var org := SearchedList(kind, xid).value;
    assert forall r :: BelongsOn(s, node, org, r) ==> OnList(s, node, org, r);
  }

  function Rearmed(x: Xact, now: Time): Xact
    requires x.responseCount > 1
  {
    x.(responseCount := x.responseCount - 1, response := Some(now + T3_RESPONSE))
  }

  /** The response timer finds the packet to resend, or gives the transaction up. */
  lemma ResponseTimeoutShape(s: State, r: Ref)
    requires LiveRef(s, r) && XactOk(s.xacts[r]) && s.xacts[r].response.Some?
    ensures var x := s.xacts[r];
      if x.responseCount == 1 then ResponseTimeout(s, r) == Delete(s, r)
      else
        && XactOk(Rearmed(x, s.now))
        && x.slots[x.step - 1].packet.Some?
        && ResponseTimeout(s, r) == Done(Send(Put(s, r, Rearmed(x, s.now)), x.node, x.slots[x.step - 1].packet.value))
  {
  }

  lemma ResponseTimeoutKeeps(s: State, r: Ref)
    requires Inv(s) && LiveRef(s, r) && s.xacts[r].response.Some?
    ensures ResponseTimeout(s, r).Done? && Inv(ResponseTimeout(s, r).value)
  {
    hide XactOk, PoolOk, ListsOk, Matched, RemoteUnique, PacketsOk, IdsOk, SentOk;
    var x := s.xacts[r];
    ResponseTimeoutShape(s, r);
    if x.responseCount == 1 {
      DeleteKeeps(s, r);
    } else {
      TransmitKeeps(s, r, Rearmed(x, s.now), x.node, x.slots[x.step - 1].packet.value);
    }
  }

  lemma HoldingTimeoutKeeps(s: State, r: Ref)
    requires Inv(s) && LiveRef(s, r)
    ensures HoldingTimeout(s, r) == Delete(s, r) && Delete(s, r).Done? && Inv(Delete(s, r).value)
  {
    hide PoolOk, ListsOk, Matched, RemoteUnique, PacketsOk, IdsOk, SentOk;
    DeleteKeeps(s, r);
  }

  lemma DeleteAllKeeps(s: State, node: NodeId)
    requires Inv(s) && node in s.nodes
    ensures DeleteAll(s, node).Done? && Inv(DeleteAll(s, node).value)
    ensures DeleteAll(s, node).value.xacts.Keys == set r | r in s.xacts && s.xacts[r].node != node
  {
    hide XactOk, PoolOk, ListsOk, Matched, RemoteUnique, PacketsOk, IdsOk, SentOk;
    var locals := s.nodes[node].local;
    OnListIsLive(s, node, Local);
    DeleteEachKeeps(s, locals);
    DeleteEachFrame(s, locals);
    var s1 := DeleteEach(s, locals).value;
    OnListIsLive(s1, node, Remote);
    DeleteEachKeeps(s1, s1.nodes[node].remote);
    DeleteEachFrame(s1, s1.nodes[node].remote);
  }

  lemma OnListIsLive(s: State, node: NodeId, org: Originator)
    requires ListsOk(s) && node in s.nodes
    ensures NoDuplicates(ListOf(s, node, org))
    ensures forall r :: r in ListOf(s, node, org) <==> BelongsOn(s, node, org, r)
  {
    assert forall r :: OnList(s, node, org, r) <==> BelongsOn(s, node, org, r);
  }

  lemma DeleteEachFrame(s: State, refs: seq<Ref>)
    requires DeleteEach(s, refs).Done?
    ensures var t := DeleteEach(s, refs).value;
      t.nodes.Keys == s.nodes.Keys && t.xacts.Keys <= s.xacts.Keys
      && forall r :: r in t.xacts ==> SameButPartner(t.xacts[r], s.xacts[r])
    decreases |refs|
  {
    if refs != [] {
      DeleteShape(s, refs[0]);
      DeleteEachFrame(Delete(s, refs[0]).value, refs[1..]);
    }
  }

  /** The invariant survives every step of every caller. */
  lemma StepKeeps(s: State, e: Event, t: State)
    requires Inv(s) && Steps(s, e, t)
    ensures Inv(t)
  {
    hide XactOk, PoolOk, ListsOk, Matched, RemoteUnique, PacketsOk, IdsOk;
    match e
    case EvCreate(node, kind, teid, buffer) => LocalCreateKeeps(s, node, kind, teid, buffer);
    case EvAnswer(r, kind, teid, buffer) => AnswerKeeps(s, r, kind, teid, buffer);
    case EvCommit(r) => CommitKeeps(s, r);
    case EvReceive(node, kind, sqn) => ReceiveKeeps(s, node, kind, sqn);
    case EvResponseTimeout(r) => ResponseTimeoutKeeps(s, r);
    case EvHoldingTimeout(r) => HoldingTimeoutKeeps(s, r);
    case EvLink(a, b) => LinkKeeps(s, a, b);
    case EvUnlink(a, b) => UnlinkKeeps(s, a, b);
    case EvDeleteAll(node) => DeleteAllKeeps(s, node);
    case EvAdvance(delay) =>
      SamePlacesKeepLists(s, t);
      SamePlacesKeepIds(s, t);
      SamePacketsKeep(s, t);
      SamePartnersKeep(s, t);
  }

  lemma InitialInv(size: nat, nodes: set<NodeId>)
    ensures Inv(InitialState(size, nodes))
  {
    var s := InitialState(size, nodes);
    assert forall i :: 0 <= i < size ==> s.free[i] == i + 1;
    forall r | 1 <= r <= size
      ensures r in s.free
    {
      assert s.free[r - 1] == r;
    }
  }
}
