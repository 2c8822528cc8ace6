/** What the operations of the transaction layer do, in records, numbers and positions. */
module GtpXactLaws {
  import opened Wrappers
  import opened GtpMessages
  import opened GtpXactModel
  import opened GtpXactInvariant
  import opened GtpXactSteps

  // ---- message types

  /** The stage of every type; from 0x800000 on an identifier is that of a command. */
  lemma StageTable(kind: Kind, xid: Xid)
    ensures StageOf(kind, xid).Initial? <==>
      || kind in {32, 34, 36, 64, 66, 68, 166, 168, 170, 176}
      || (kind in {95, 97, 99} && xid < 0x80_0000)
    ensures StageOf(kind, xid).Intermediate? <==> kind in {95, 97, 99} && xid >= 0x80_0000
    ensures StageOf(kind, xid).Final? <==>
      kind in {33, 35, 37, 65, 67, 69, 96, 98, 100, 167, 169, 171, 177}
    ensures Flagged(xid) <==> xid >= 0x80_0000
    ensures XidToSqn(xid) == xid * 256
  {
  }

  /** A request or a command, and what answers it. */
  predicate Answers(kind: Kind, answer: Kind) {
    (kind, answer) in
      {(32, 33), (34, 35), (36, 37), (64, 65), (66, 67), (68, 69), (95, 96), (97, 98), (99, 100),
       (166, 167), (168, 169), (170, 171), (176, 177)}
  }

  // ---- receiving

  /** A request of ours that waits takes the answer: the slot after its own is filled, and its response timer stops. */
  lemma AnswerTaken(s: State, node: NodeId, r: Ref, answer: Kind, sqn: Sqn)
    requires Inv(s) && node in s.nodes && BelongsOn(s, node, Local, r) && s.xacts[r].step == 1
    requires Answers(s.xacts[r].slots[0].kind, answer) && s.xacts[r].xid == sqn / 256 < 0x80_0000
    requires forall q :: BelongsOn(s, node, Local, q) && s.xacts[q].xid == sqn / 256 ==> q == r
    ensures var x := s.xacts[r];
      var y := x.(step := 2, slots := [x.slots[0], Slot(answer, None), x.slots[2]], response := None);
      Receive(s, node, answer, sqn) == Done(Received(s.(xacts := s.xacts[r := y]), Ok, Some(r)))
  {
    hide PoolOk, Matched, RemoteUnique, PacketsOk, IdsOk, SentOk, ListsOk, XactOk;
    StageTable(answer, sqn / 256);
    LocalIsFound(s, node, r, answer, sqn / 256);
    var x := s.xacts[r];
    assert x.slots[1 := Slot(answer, None)] == [x.slots[0], Slot(answer, None), x.slots[2]];
  }

  lemma LocalIsFound(s: State, node: NodeId, r: Ref, kind: Kind, xid: Xid)
    requires Inv(s) && node in s.nodes && BelongsOn(s, node, Local, r) && s.xacts[r].xid == xid
    requires forall q :: BelongsOn(s, node, Local, q) && s.xacts[q].xid == xid ==> q == r
    requires StageOf(kind, xid).Final? && !Flagged(xid)
    ensures FindByXid(s, node, kind, xid) == Done(Some(r))
  {
    hide PoolOk, Matched, RemoteUnique, PacketsOk, IdsOk, SentOk, XactOk;
    OnListIsLive(s, node, Local);
    assert OnList(s, node, Local, r);
  }

  /** A request of the other side starts a transaction, in the first free slot and at the end of its list. */
  lemma RequestStarts(s: State, node: NodeId, kind: Kind, sqn: Sqn)
    requires Inv(s) && node in s.nodes && s.free != []
    requires kind in {32, 34, 36, 64, 66, 68, 166, 168, 170, 176} || (kind in {95, 97, 99} && sqn / 256 < 0x80_0000)
    requires forall q :: BelongsOn(s, node, Remote, q) ==> s.xacts[q].xid != sqn / 256
    ensures var r, none := s.free[0], Slot(0, None);
      var x := Xact(Remote, sqn / 256, node, 1, [Slot(kind, None), none, none],
                    None, 3, Some(s.now + 9_000_000), 1, None);
      Receive(s, node, kind, sqn) ==
        Done(Received(s.(free := s.free[1..], xacts := s.xacts[r := x],
                         nodes := s.nodes[node := Lists(s.nodes[node].local, s.nodes[node].remote + [r])]),
                      Ok, Some(r)))
  {
    hide PoolOk, Matched, RemoteUnique, PacketsOk, IdsOk, SentOk, XactOk, StageOf;
    StageTable(kind, sqn / 256);
    OnListIsLive(s, node, Remote);
    assert Found(s, node, kind, sqn / 256).None? by {
      if Found(s, node, kind, sqn / 256).Some? { FoundIs(s, node, kind, sqn / 256); }
    }
    assert [EMPTY, EMPTY, EMPTY][0 := Slot(kind, None)] == [Slot(kind, None), Slot(0, None), Slot(0, None)];
  }

  /** A message that is taken in fills the next slot and stops the response timer; the holding timer is started anew unless
      the message is the final one. */
  lemma MessageTaken(x: Xact, kind: Kind, now: Time)
    requires UpdateRx(x, kind, now).Done? && UpdateRx(x, kind, now).value.Accepted?
    ensures x.step < 3
    ensures UpdateRx(x, kind, now).value.x ==
      x.(step := x.step + 1, slots := x.slots[x.step := Slot(kind, None)], response := None,
         holding := if StageOf(kind, x.xid).Final? then x.holding else Some(now + 9_000_000))
  {
  }

  /** A message that is recognised is answered as before, and then the holding timer is started anew too. */
  lemma MessageRepeated(x: Xact, kind: Kind, now: Time)
    requires UpdateRx(x, kind, now).Done? && UpdateRx(x, kind, now).value.Duplicate?
    ensures var answer := x.slots[if x.org.Local? then 2 else 1].packet;
      UpdateRx(x, kind, now).value ==
        Duplicate(if answer.Some? then x.(holding := Some(now + 9_000_000)) else x, answer)
  {
  }

  // ---- packets

  /** What is stored of a message of ours: the caller's octets, under a header that counts all but its first four. */
  lemma PacketStored(x: Xact, kind: Kind, teid: nat, buffer: Buffer)
    requires UpdateTx(x, kind, teid, buffer).Done?
    ensures var packet := Packet(buffer.id, kind, (|buffer.body| + 8) % 0x1_0000, teid, x.xid * 256, buffer.body);
      && x.step < 3
      && UpdateTx(x, kind, teid, buffer).value ==
         x.(step := x.step + 1, slots := x.slots[x.step := Slot(kind, Some(packet))])
  {
  }

  /** What can be stored, by type, originator and step: a request as the first message, the last message of three as the
      third, and an answer, or under the identifier of a command a request, as the second. */
  lemma StoredIff(x: Xact, kind: Kind, teid: nat, buffer: Buffer)
    ensures UpdateTx(x, kind, teid, buffer).Done? <==>
      var answer := kind in {33, 35, 37, 65, 67, 69, 96, 98, 100, 167, 169, 171, 177};
      if x.org.Local? then
        || (x.step == 0 && kind in {32, 34, 36, 64, 66, 68, 166, 168, 170, 176})
        || (x.step == 0 && kind in {95, 97, 99} && x.xid < 0x80_0000)
        || (x.step == 2 && answer)
      else x.step == 1 && (answer || (kind in {95, 97, 99} && x.xid >= 0x80_0000))
  {
    hide StageOf;
    StageTable(kind, x.xid);
  }

  /** What a commit does, by type, originator and step. */
  lemma CommittedAs(x: Xact, now: Time)
    requires XactOk(x) && CommitXact(x, now).Done?
    ensures var slot := x.slots[x.step - 1];
      var last := slot.kind in {33, 35, 37, 65, 67, 69, 96, 98, 100, 167, 169, 171, 177};
      CommitXact(x, now).value ==
        if slot.packet.None? then Discard
        else Transmit(if last then x else x.(response := Some(now + 3_000_000)), slot.packet.value)
  {
    hide StageOf;
    StageTable(x.slots[x.step - 1].kind, x.xid);
  }

  /** A new transaction of ours gets the next identifier and the first free slot, at the end of its list. */
  lemma CreatedTables(s: State, node: NodeId, kind: Kind, teid: nat, buffer: Buffer)
    requires node in s.nodes && LocalCreate(s, node, kind, teid, buffer).Done?
    ensures var t := LocalCreate(s, node, kind, teid, buffer).value;
      && s.free != [] && t.lastId == (if s.lastId >= 0x80_0000 then 1 else s.lastId + 1) && t.free == s.free[1..]
      && t.nodes == s.nodes[node := Lists(s.nodes[node].local + [s.free[0]], s.nodes[node].remote)]
  {
    hide HeaderOn;
    var x := LocalCreateShape(s, node, kind, teid, buffer);
  }

  /** A request that is created and committed is on the wire as it was handed in, and waits three seconds for its answer. */
  lemma CreatedIsSent(s: State, node: NodeId, kind: Kind, teid: nat, buffer: Buffer)
    requires Inv(s) && node in s.nodes && buffer.id !in s.given && LocalCreate(s, node, kind, teid, buffer).Done?
    ensures s.free != []
    ensures var xid: Xid, r, none := if s.lastId >= 0x80_0000 then 1 else s.lastId + 1, s.free[0], Slot(0, None);
      var packet := Packet(buffer.id, kind, (|buffer.body| + 8) % 0x1_0000, teid, xid * 256, buffer.body);
      var t := LocalCreate(s, node, kind, teid, buffer).value;
      && t.sent == s.sent
      && t.xacts == s.xacts[r := Xact(Local, xid, node, 1, [Slot(kind, Some(packet)), none, none],
                                      None, 3, None, 1, None)]
      && r in t.xacts && node in t.nodes && Commit(t, r).Done?
      && Commit(t, r).value.sent == s.sent + [Sending(s.now, node, packet)]
      && Commit(t, r).value.xacts == t.xacts[r := t.xacts[r].(response := Some(s.now + 3_000_000))]
  {
    hide PoolOk, ListsOk, Matched, RemoteUnique, PacketsOk, IdsOk, SentOk, SlotsOk;
    var x := LocalCreateShape(s, node, kind, teid, buffer);
    StageTable(kind, x.xid);
  }

  /** An answer that is stored and committed is on the wire as it was handed in. */
  lemma AnswerIsSent(s: State, r: Ref, kind: Kind, teid: nat, buffer: Buffer)
    requires Inv(s) && LiveRef(s, r) && buffer.id !in s.given && Answer(s, r, kind, teid, buffer).Done?
    ensures var x := s.xacts[r];
      var packet := Packet(buffer.id, kind, (|buffer.body| + 8) % 0x1_0000, teid, x.xid * 256, buffer.body);
      var t := Answer(s, r, kind, teid, buffer).value;
      && LiveRef(t, r) && Commit(t, r).Done?
      && Commit(t, r).value.sent == s.sent + [Sending(s.now, x.node, packet)]
  {
    hide PoolOk, ListsOk, Matched, RemoteUnique, PacketsOk, IdsOk, SentOk, HeaderOn;
    assert XactOk(s.xacts[r]);
    AnswerKeeps(s, r, kind, teid, buffer);
    AnswerShape(s, r, kind, teid, buffer);
    PacketStored(s.xacts[r], kind, teid, buffer);
    var t := Answer(s, r, kind, teid, buffer).value;
    CommitAbortsIff(t, r);
    CommitSendsStored(t, r);
    AnswersAreOwn(s.xacts[r], kind, teid, buffer);
  }

  lemma AnswersAreOwn(x: Xact, kind: Kind, teid: nat, buffer: Buffer)
    requires UpdateTx(x, kind, teid, buffer).Done?
    ensures OwnStep(x.org, x.step)
  {
  }

  // ---- searching

  /** The first transaction on the list with the identifier, and no other. */
  lemma {:induction false} FirstIsFirst(list: seq<Ref>, xacts: map<Ref, Xact>, xid: Xid, i: nat)
    requires i < |list| && list[i] in xacts && xacts[list[i]].xid == xid
    requires forall j :: 0 <= j < i ==> list[j] !in xacts || xacts[list[j]].xid != xid
    ensures FirstWithXid(list, xacts, xid) == Some(list[i])
  {
    if i > 0 {
      assert list[0] !in xacts || xacts[list[0]].xid != xid;
      assert forall j :: 0 <= j < i - 1 ==> list[1..][j] == list[j + 1];
      FirstIsFirst(list[1..], xacts, xid, i - 1);
    }
  }

  // ---- association and deletion

  /** Associating names each the partner of the other, if neither had one; nothing else changes. */
  lemma LinkPairs(s: State, a: Ref, b: Ref)
    requires a in s.xacts && b in s.xacts
    ensures Link(s, a, b).Done? <==> s.xacts[a].partner.None? && s.xacts[b].partner.None?
    ensures Link(s, a, b).Done? ==>
      var t := Link(s, a, b).value;
      && t == s.(xacts := t.xacts) && t.xacts.Keys == s.xacts.Keys
      && t.xacts[a] == s.xacts[a].(partner := Some(b)) && t.xacts[b] == s.xacts[b].(partner := Some(a))
      && forall q :: q in s.xacts && q != a && q != b ==> t.xacts[q] == s.xacts[q]
  {
  }

  /** Deassociating clears both partners, if both had one; nothing else changes. */
  lemma UnlinkClears(s: State, a: Ref, b: Ref)
    requires a in s.xacts && b in s.xacts
    ensures Unlink(s, a, b).Done? <==> s.xacts[a].partner.Some? && s.xacts[b].partner.Some?
    ensures Unlink(s, a, b).Done? ==>
      var t := Unlink(s, a, b).value;
      && t == s.(xacts := t.xacts) && t.xacts.Keys == s.xacts.Keys
      && t.xacts[a] == s.xacts[a].(partner := None) && t.xacts[b] == s.xacts[b].(partner := None)
      && forall q :: q in s.xacts && q != a && q != b ==> t.xacts[q] == s.xacts[q]
  {
  }

  /** The identifiers of the packets of a history. */
  function PacketsOf(slots: History): seq<nat> {
    (if slots[0].packet.Some? then [slots[0].packet.value.id] else [])
    + (if slots[1].packet.Some? then [slots[1].packet.value.id] else [])
    + (if slots[2].packet.Some? then [slots[2].packet.value.id] else [])
  }

  lemma HeldIsPackets(slots: History)
    ensures HeldBy(slots) == PacketsOf(slots)
  {
    assert slots[1..][0] == slots[1] && slots[1..][1..] == slots[2..] && slots[2..][0] == slots[2] && slots[2..][1..] == [];
    assert HeldBy(slots[2..]) == if slots[2].packet.Some? then [slots[2].packet.value.id] else [];
  }

  /** What is not on the list twice is taken out where it is. */
  lemma {:induction false} TakenOut<T(!new)>(front: seq<T>, x: T, back: seq<T>)
    requires x !in front && x !in back
    ensures Without(front + [x] + back, x) == front + back
  {
    var all := front + [x] + back;
    if front == [] {
      assert all[0] == x && all[1..] == back;
      NotThere(back, x);
    } else {
      assert all[0] == front[0] && all[1..] == front[1..] + [x] + back;
      TakenOut(front[1..], x, back);
      assert front + back == [front[0]] + (front[1..] + back);
    }
  }

  lemma {:induction false} NotThere<T(!new)>(s: seq<T>, x: T)
    requires x !in s
    ensures Without(s, x) == s
  {
    if s != [] { NotThere(s[1..], x); }
  }

  /** Deleting: the slot goes to the end of the free ones, the packets are freed in the order of the history, and the list
      closes up; a partner loses its own. */
  lemma DeleteTakesOut(s: State, r: Ref, front: seq<Ref>, back: seq<Ref>)
    requires Inv(s) && LiveRef(s, r)
    requires ListOf(s, s.xacts[r].node, s.xacts[r].org) == front + [r] + back
    ensures Delete(s, r).Done?
    ensures var t, x := Delete(s, r).value, s.xacts[r];
      var lists := s.nodes[x.node];
      && t == s.(free := s.free + [r], births := s.births - {r}, freed := s.freed + PacketsOf(x.slots),
                 xacts := t.xacts,
                 nodes := s.nodes[x.node := if x.org.Local? then Lists(front + back, lists.remote)
                                            else Lists(lists.local, front + back)])
      && t.xacts.Keys == s.xacts.Keys - {r}
      && forall q :: q in t.xacts ==>
           t.xacts[q] == if s.xacts[q].partner == Some(r) then s.xacts[q].(partner := None) else s.xacts[q]
  {
    hide PoolOk, RemoteUnique, PacketsOk, IdsOk, SentOk, XactOk, Without, HeldBy, PacketsOf;
    DeleteKeeps(s, r);
    HeldIsPackets(s.xacts[r].slots);
    OnListIsLive(s, s.xacts[r].node, s.xacts[r].org);
    assert r !in front && r !in back by {
      NotBesideItself(ListOf(s, s.xacts[r].node, s.xacts[r].org), front, r, back);
    }
    TakenOut(front, r, back);
    DeletePartners(s, r);
  }

  lemma NotBesideItself<T>(list: seq<T>, front: seq<T>, x: T, back: seq<T>)
    requires NoDuplicates(list) && list == front + [x] + back
    ensures x !in front && x !in back
  {
    assert list[|front|] == x;
    forall i | 0 <= i < |front|
      ensures front[i] != x
    {
      assert list[i] == front[i];
    }
    forall i | 0 <= i < |back|
      ensures back[i] != x
    {
      assert list[|front| + 1 + i] == back[i];
    }
  }

  lemma DeletePartners(s: State, r: Ref)
    requires Inv(s) && LiveRef(s, r) && Delete(s, r).Done?
    ensures var t := Delete(s, r).value;
      forall q :: q in t.xacts ==>
        t.xacts[q] == if s.xacts[q].partner == Some(r) then s.xacts[q].(partner := None) else s.xacts[q]
  {
    hide PoolOk, RemoteUnique, PacketsOk, IdsOk, SentOk, XactOk, ListsOk, Without, HeldBy, SlotsOk;
    var t := Delete(s, r).value;
    forall q | q in t.xacts
      ensures t.xacts[q] == if s.xacts[q].partner == Some(r) then s.xacts[q].(partner := None) else s.xacts[q]
    {
      assert Paired(s, q, r) <==> Paired(s, r, q);
    }
  }

  /** Associating two transactions and deleting one leaves the other as it was before. */
  lemma LinkThenDelete(s: State, a: Ref, b: Ref)
    requires Inv(s) && LiveRef(s, a) && LiveRef(s, b) && a != b
    requires s.xacts[a].partner.None? && s.xacts[b].partner.None?
    ensures Link(s, a, b).Done? && LiveRef(Link(s, a, b).value, a) && Delete(Link(s, a, b).value, a).Done?
    ensures var u := Delete(Link(s, a, b).value, a).value;
      a !in u.xacts && b in u.xacts && u.xacts[b] == s.xacts[b]
  {
    hide Inv, Delete;
    LinkPairs(s, a, b);
    LinkKeeps(s, a, b);
    var t := Link(s, a, b).value;
    DeleteKeeps(t, a);
    DeletePartners(t, a);
    DeleteShape(t, a);
  }

  /** The state after initialisation. */
  lemma Initially(size: nat, nodes: set<NodeId>)
    ensures var s := InitialState(size, nodes);
      && s.now == 0 && s.lastId == 0 && s.size == |s.free| == size && s.xacts == map[] && s.nodes.Keys == nodes
      && s.sent == [] && (forall i :: 0 <= i < size ==> s.free[i] == i + 1)
      && forall node :: node in nodes ==> s.nodes[node] == Lists([], [])
  {
  }
}
