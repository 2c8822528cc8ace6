/** What single operations of the transaction layer do and do not change. */
module GtpXactSteps {
  import opened Wrappers
  import opened GtpMessages
  import opened GtpXactModel
  import opened GtpXactInvariant

  // ---- when the assertions fail

  /** Committing fails exactly when the last completed step was a reception, unless that was the final message. */
  lemma CommitAbortsIff(s: State, r: Ref)
    requires Inv(s) && LiveRef(s, r)
    ensures var x := s.xacts[r];
      Commit(s, r).Abort? <==>
        !OwnStep(x.org, x.step - 1) && !StageOf(x.slots[x.step - 1].kind, x.xid).Final?
  {
    hide PoolOk, ListsOk, Matched, RemoteUnique, PacketsOk, IdsOk, SentOk;
    assert XactOk(s.xacts[r]);
    DeleteKeeps(s, r);
  }

  /** A commit sends the packet stored at the step just completed, and waits for the answer unless the packet is the final
      message; or it deletes. */
  lemma CommitSendsStored(s: State, r: Ref)
    requires Inv(s) && LiveRef(s, r) && Commit(s, r).Done?
    ensures var x := s.xacts[r];
      var t := Commit(s, r).value;
      if OwnStep(x.org, x.step - 1) then
        && x.slots[x.step - 1].packet.Some?
        && t.sent == s.sent + [Sending(s.now, x.node, x.slots[x.step - 1].packet.value)]
        && r in t.xacts && t.xacts[r] == x.(response := t.xacts[r].response)
        && t.xacts[r].response ==
             (if StageOf(x.slots[x.step - 1].kind, x.xid).Final? then x.response else Some(s.now + T3_RESPONSE))
      else r !in t.xacts && t.sent == s.sent && x.response.None?
  {
    hide PoolOk, ListsOk, Matched, RemoteUnique, PacketsOk, IdsOk, SentOk, StageOf, Delete;
    assert XactOk(s.xacts[r]);
    if CommitXact(s.xacts[r], s.now).value.Discard? {
      DeleteKeeps(s, r);
      DeleteShape(s, r);
    }
  }

  /** The transaction a message finds, if any. */
  function Found(s: State, node: NodeId, kind: Kind, xid: Xid): Option<Ref>
    requires node in s.nodes
  {
    var found := FindByXid(s, node, kind, xid);
    if found.Done? then found.value else None
  }

  predicate IsRepeat(x: Xact, kind: Kind) {
    if x.org.Local? then x.slots[1].kind == kind else x.slots[0].kind == kind
  }

  /** When a received message reaches no failing assertion: it starts an exchange and a slot is
      free; it repeats a step already taken; or it is the next step of a transaction that waits for it. */
  predicate Acceptable(s: State, node: NodeId, kind: Kind, xid: Xid)
    requires node in s.nodes
  {
    match (StageOf(kind, xid), Found(s, node, kind, xid))
    case (Unknown, _) => false
    case (Initial, None) => s.free != []
    case (Initial, Some(r)) => IsRepeat(s.xacts[r], kind) && s.xacts[r].step < 3
    case (Intermediate, Some(r)) => IsRepeat(s.xacts[r], kind) || s.xacts[r].step == 1
    case (Final, Some(r)) => s.xacts[r].step == if Flagged(xid) then 2 else 1
    case (_, None) => false
  }

  /** Receive is not total: this is exactly when it survives. */
  lemma ReceiveSurvivesIff(s: State, node: NodeId, kind: Kind, sqn: Sqn)
    requires Inv(s) && node in s.nodes
    ensures Receive(s, node, kind, sqn).Done? <==> Acceptable(s, node, kind, SqnToXid(sqn))
  {
    hide PoolOk, Matched, RemoteUnique, PacketsOk, IdsOk, SentOk;
    var xid := SqnToXid(sqn);
    match Found(s, node, kind, xid)
    case None =>
    case Some(r) => FoundIs(s, node, kind, xid);
  }

  lemma FoundIs(s: State, node: NodeId, kind: Kind, xid: Xid)
    requires SlotsOk(s) && ListsOk(s) && node in s.nodes && Found(s, node, kind, xid).Some?
    ensures var r := Found(s, node, kind, xid).value;
      && SearchedList(kind, xid).Done?
      && BelongsOn(s, node, SearchedList(kind, xid).value, r)
      && s.xacts[r].xid == xid && XactOk(s.xacts[r])
  {
    var r := Found(s, node, kind, xid).value;
    OnListIsLive(s, node, SearchedList(kind, xid).value);
  }

  /** The same response arriving once more, after its transaction was committed away, is fatal. */
  lemma RepeatedResponseAborts(s: State, node: NodeId, r: Ref, kind: Kind)
    requires Inv(s) && BelongsOn(s, node, Local, r) && node in s.nodes && s.xacts[r].step == 2
    requires StageOf(kind, s.xacts[r].xid).Final? && s.xacts[r].slots[1].kind == kind && !Flagged(s.xacts[r].xid)
    requires forall q :: BelongsOn(s, node, Local, q) && q != r ==> s.xacts[q].xid != s.xacts[r].xid
    ensures Receive(s, node, kind, XidToSqn(s.xacts[r].xid)).Abort?
    ensures Commit(s, r).Done? && Receive(Commit(s, r).value, node, kind, XidToSqn(s.xacts[r].xid)).Abort?
  {
    hide PoolOk, Matched, RemoteUnique, PacketsOk, IdsOk, SentOk;
    var xid := s.xacts[r].xid;
    OnListIsLive(s, node, Local);
    CommitAbortsIff(s, r);
    CommitKeeps(s, r);
    DeleteKeeps(s, r);
    DeleteShape(s, r);
    var t := Commit(s, r).value;
    OnListIsLive(t, node, Local);
    ReceiveSurvivesIff(s, node, kind, XidToSqn(xid));
    ReceiveSurvivesIff(t, node, kind, XidToSqn(xid));
  }

  // ---- duplicates

  /** A call that returns Retry repeats the stored answer and pushes back the holding timer, if there is an answer; nothing
      else of the peer changes. */
  lemma RetryChangesNothing(s: State, node: NodeId, kind: Kind, sqn: Sqn)
    requires Inv(s) && node in s.nodes && Receive(s, node, kind, sqn).Done?
    requires Receive(s, node, kind, sqn).value.status.Retry?
    ensures var t := Receive(s, node, kind, sqn).value.state;
      var r := Found(s, node, kind, SqnToXid(sqn));
      && r.Some? && r.value in t.xacts
      && t == s.(sent := t.sent, xacts := s.xacts[r.value := t.xacts[r.value]])
      && t.xacts[r.value] == s.xacts[r.value].(holding := t.xacts[r.value].holding)
      && var answer := s.xacts[r.value].slots[if s.xacts[r.value].org.Local? then 2 else 1].packet;
         && t.xacts[r.value].holding ==
              (if answer.Some? then Some(s.now + T3_DUPLICATED) else s.xacts[r.value].holding)
         && t.sent == s.sent + (if answer.Some? then [Sending(s.now, node, answer.value)] else [])
  {
    hide SlotsOk, PoolOk, Matched, RemoteUnique, PacketsOk, IdsOk, SentOk, XactOk;
  }

  /** A message that starts a transaction is an initial one, and is its first step. */
  lemma ReceiveCreatesInitial(s: State, node: NodeId, kind: Kind, sqn: Sqn)
    requires Inv(s) && node in s.nodes && Receive(s, node, kind, sqn).Done?
    requires Found(s, node, kind, SqnToXid(sqn)).None?
    ensures var received := Receive(s, node, kind, sqn).value;
      && StageOf(kind, SqnToXid(sqn)).Initial?
      && received.status.Ok? && s.free != [] && received.xact == Some(s.free[0])
      && received.state.xacts == s.xacts[s.free[0] :=
           Xact(Remote, SqnToXid(sqn), node, 1, [Slot(kind, None), EMPTY, EMPTY],
                None, T3_RESPONSE_RETRIES, Some(s.now + T3_DUPLICATED), T3_DUPLICATED_RETRIES, None)]
      && received.state == s.(xacts := received.state.xacts, free := s.free[1..], nodes := received.state.nodes)
  {
    hide Inv, XactOk;
    assert [EMPTY, EMPTY, EMPTY][0 := Slot(kind, None)] == [Slot(kind, None), EMPTY, EMPTY];
  }

  // ---- association

  /** Deassociating keeps the matching exactly when the two name each other, or each names itself. */
  lemma DeassociateKeepsMatchingIff(s: State, a: Ref, b: Ref)
    requires Matched(s) && a in s.xacts && b in s.xacts
    requires s.xacts[a].partner.Some? && s.xacts[b].partner.Some?
    ensures Unlink(s, a, b).Done?
    ensures Matched(Unlink(s, a, b).value) <==>
      Paired(s, a, b) || (Paired(s, a, a) && Paired(s, b, b))
  {
    var t := Unlink(s, a, b).value;
    var p, q := s.xacts[a].partner.value, s.xacts[b].partner.value;
    assert Paired(s, a, p) && Paired(s, p, a) && Paired(s, b, q) && Paired(s, q, b);
    if p == b {
      UnlinkMatches(s, a, b);
    } else if p != a {
      assert Paired(t, p, a) && !Paired(t, a, p);
    } else if q != b {
      assert Paired(t, q, b) && !Paired(t, b, q);
    } else {
      assert forall c, d :: Paired(t, c, d) <==> Paired(s, c, d) && c != a && c != b;
    }
  }
}
