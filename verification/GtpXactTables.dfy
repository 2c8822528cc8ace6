/** Identifiers, routing and ownership: what the tables of a peer guarantee. */
module GtpXactTables {
  import opened Wrappers
  import opened GtpMessages
  import opened GtpXactModel
  import opened GtpXactInvariant
  import opened GtpXactSteps
  import opened GtpXactRuns

  // ---- identifiers

  lemma NthIdInjective(m: nat, n: nat)
    requires 1 <= m < n < m + MAX_XACT_ID
    ensures NthId(m) != NthId(n)
  {
    var turns := (n - 1) / MAX_XACT_ID - (m - 1) / MAX_XACT_ID;
    assert n - m == turns * MAX_XACT_ID + ((n - 1) % MAX_XACT_ID - (m - 1) % MAX_XACT_ID);
  }

  ghost predicate DistinctLocalIds(s: State) {
    forall a, b :: a in s.births && b in s.births && a != b && a in s.xacts && b in s.xacts ==>
      s.xacts[a].xid != s.xacts[b].xid
  }

  /** Identifiers of live local transactions differ while none has outlived 0x800000 - 1 later creations. */
  lemma IdsDistinctWhileYoung(s: State)
    requires Inv(s) && forall r :: r in s.births ==> s.created < s.births[r] + MAX_XACT_ID
    ensures DistinctLocalIds(s)
  {
    hide PoolOk, ListsOk, Matched, RemoteUnique, PacketsOk, SentOk, SlotsOk, XactOk;
    forall a, b | a in s.births && b in s.births && a != b
      ensures s.xacts[a].xid != s.xacts[b].xid
    {
      if s.births[a] < s.births[b] {
        NthIdInjective(s.births[a], s.births[b]);
      } else {
        NthIdInjective(s.births[b], s.births[a]);
      }
    }
  }

  // ---- routing

  function Opposite(org: Originator): Originator {
    if org.Local? then Remote else Local
  }

  /** A final message goes astray when its flag and its sender do not fit: a flagged one is taken for
      the sender's own transaction's last word, an unflagged one for an answer. */
  predicate RoutedRight(org: Originator, kind: Kind, xid: Xid) {
    StageOf(kind, xid).Final? ==> (Flagged(xid) <==> org.Local?)
  }

  /** A packet in the history of a transaction makes the receiver search the list of the opposite
      originator exactly when it is routed right. */
  lemma SearchesOppositeIff(y: Xact, i: nat)
    requires XactOk(y) && i < y.step && OwnStep(y.org, i)
    ensures SearchedList(y.slots[i].kind, y.xid).Done?
    ensures SearchedList(y.slots[i].kind, y.xid) == Done(Opposite(y.org)) <==> RoutedRight(y.org, y.slots[i].kind, y.xid)
  {
  }

  /** The receiver finds the transaction at the other end exactly when the packet is routed right. */
  lemma FindsOtherEndIff(y: Xact, i: nat, d: State, node: NodeId, r: Ref)
    requires XactOk(y) && i < y.step && OwnStep(y.org, i)
    requires Inv(d) && node in d.nodes && DistinctLocalIds(d)
    requires BelongsOn(d, node, Opposite(y.org), r) && d.xacts[r].xid == y.xid
    ensures Found(d, node, y.slots[i].kind, y.xid) == Some(r) <==> RoutedRight(y.org, y.slots[i].kind, y.xid)
  {
    hide PoolOk, Matched, PacketsOk, SentOk, XactOk;
    var kind := y.slots[i].kind;
    SearchesOppositeIff(y, i);
    var org := SearchedList(kind, y.xid).value;
    OnListIsLive(d, node, org);
    if Found(d, node, kind, y.xid).Some? {
      var q := Found(d, node, kind, y.xid).value;
      FoundIs(d, node, kind, y.xid);
      if org == Opposite(y.org) {
        OnlyOneOnList(d, node, org, q, r);
      }
    }
  }

  lemma OnlyOneOnList(s: State, node: NodeId, org: Originator, q: Ref, r: Ref)
    requires Inv(s) && DistinctLocalIds(s) && BelongsOn(s, node, org, q) && BelongsOn(s, node, org, r)
    requires s.xacts[q].xid == s.xacts[r].xid
    ensures q == r
  {
    hide PoolOk, ListsOk, Matched, PacketsOk, SentOk, XactOk;
    if org.Remote? {
      assert IsRemote(s, q) && IsRemote(s, r);
    }
  }

  /** A command under a flagged identifier that is answered by a failure indication: the answer never
      reaches the transaction that waits for it, and it is fatal unless a remote transaction with the
      same identifier happens to expect a final message. */
  lemma FlaggedFailureIndicationIsLost(y: Xact, d: State, node: NodeId, r: Ref)
    requires XactOk(y) && y.org.Remote? && 2 <= y.step && Flagged(y.xid) && StageOf(y.slots[1].kind, y.xid).Final?
    requires Inv(d) && node in d.nodes && DistinctLocalIds(d)
    requires BelongsOn(d, node, Local, r) && d.xacts[r].xid == y.xid
    ensures Found(d, node, y.slots[1].kind, y.xid) != Some(r)
    ensures Receive(d, node, y.slots[1].kind, XidToSqn(y.xid)).Done? ==>
      exists q :: BelongsOn(d, node, Remote, q) && d.xacts[q].xid == y.xid && d.xacts[q].step == 2
  {
    hide PoolOk, Matched, PacketsOk, SentOk, ListsOk, SlotsOk, RemoteUnique, IdsOk;
    assert OwnStep(y.org, 1);
    hide XactOk;
    FindsOtherEndIff(y, 1, d, node, r);
    ReceiveSurvivesIff(d, node, y.slots[1].kind, XidToSqn(y.xid));
    if Receive(d, node, y.slots[1].kind, XidToSqn(y.xid)).Done? {
      FoundIs(d, node, y.slots[1].kind, y.xid);
    }
  }

  // ---- ownership

  function UpTo(n: nat): (refs: set<Ref>)
    ensures forall r :: r in refs <==> 1 <= r <= n
  {
    if n == 0 then {} else UpTo(n - 1) + {n}
  }

  function Elements(s: seq<Ref>): set<Ref> {
    set r | r in s
  }

  lemma {:induction false} UpToSize(n: nat)
    ensures |UpTo(n)| == n
  {
    if n == 0 {
    } else {
      UpToSize(n - 1);
    }
  }

  lemma {:induction false} ElementsSize(s: seq<Ref>)
    requires NoDuplicates(s)
    ensures |Elements(s)| == |s|
  {
    if s == [] {
      assert Elements(s) == {};
    } else {
      HeadApart(s);
      ElementsSize(s[1..]);
      assert Elements(s) == {s[0]} + Elements(s[1..]);
    }
  }

  /** Free slots and live transactions make up the pool. */
  lemma PoolConserved(s: State)
    requires Inv(s)
    ensures |s.free| + |s.xacts| == s.size
  {
    hide XactOk, ListsOk, Matched, RemoteUnique, PacketsOk, IdsOk, SentOk, SlotsOk, UpTo;
    ElementsSize(s.free);
    UpToSize(s.size);
    assert Elements(s.free) + s.xacts.Keys == UpTo(s.size);
    assert Elements(s.free) !! s.xacts.Keys;
  }

  ghost predicate InHistory(s: State, id: nat) {
    exists r, i :: Holds(s, r, i) && IdAt(s, r, i) == id
  }

  /** Every buffer handed in is in the history of a live transaction and not freed, or freed exactly once. */
  lemma FreedOnceOrHeld(s: State, id: nat)
    requires Inv(s) && id in s.given
    ensures multiset(s.freed)[id] == if InHistory(s, id) then 0 else 1
  {
    hide XactOk, ListsOk, Matched, RemoteUnique, PoolOk, IdsOk, SentOk, SlotsOk;
    if id in s.freed {
      CountOnce(s.freed, id);
    }
  }

  lemma {:induction false} CountOnce(s: seq<nat>, id: nat)
    requires NoDuplicates(s) && id in s
    ensures multiset(s)[id] == 1
  {
    HeadApart(s);
    assert s == [s[0]] + s[1..];
    if s[0] != id {
      CountOnce(s[1..], id);
    }
  }

  /** When no transaction is left, every buffer ever handed in was freed exactly once. */
  lemma AllFreedAtRest(s: State)
    requires Inv(s) && s.xacts == map[]
    ensures forall id :: id in s.given ==> multiset(s.freed)[id] == 1
  {
    forall id | id in s.given
      ensures multiset(s.freed)[id] == 1
    {
      FreedOnceOrHeld(s, id);
    }
  }

  // ---- removing a node

  /** Partners that are gone are forgotten; nothing else changes in the survivors. */
  ghost predicate OnlyForgets(s: State, t: State, gone: set<Ref>) {
    && t.xacts.Keys == s.xacts.Keys - gone
    && forall r :: r in t.xacts ==>
         var p := s.xacts[r].partner;
         t.xacts[r] == s.xacts[r].(partner := if p.Some? && p.value in gone then None else p)
  }

  lemma DeleteForgets(s: State, r: Ref)
    requires Inv(s) && r in s.xacts
    ensures Delete(s, r).Done? && OnlyForgets(s, Delete(s, r).value, {r})
    ensures forall n, org :: n in s.nodes && (n != s.xacts[r].node || org != s.xacts[r].org) ==>
              n in Delete(s, r).value.nodes && ListOf(Delete(s, r).value, n, org) == ListOf(s, n, org)
  {
    hide XactOk, RemoteUnique, PacketsOk, IdsOk, SentOk, SlotsOk, PoolOk, ListsOk;
    DeleteKeeps(s, r);
    DeleteShape(s, r);
    var t := Delete(s, r).value;
    forall q | q in t.xacts
      ensures var p := s.xacts[q].partner;
        t.xacts[q] == s.xacts[q].(partner := if p.Some? && p.value in {r} then None else p)
    {
      assert Paired(s, q, r) ==> Paired(s, r, q);
      assert s.xacts[r].partner == Some(q) ==> Paired(s, r, q) && Paired(s, q, r);
    }
  }

  lemma {:induction false} DeleteEachForgets(s: State, refs: seq<Ref>)
    requires Inv(s) && NoDuplicates(refs) && forall r :: r in refs ==> r in s.xacts
    ensures DeleteEach(s, refs).Done? && OnlyForgets(s, DeleteEach(s, refs).value, Elements(refs))
    decreases |refs|
  {
    hide Inv, Delete, OnlyForgets;
    DeleteEachKeeps(s, refs);
    if refs == [] {
      assert OnlyForgets(s, s, Elements(refs)) by { ForgetsNothing(s); assert Elements(refs) == {}; }
    } else {
      assert refs[0] in refs;
      DeleteKeeps(s, refs[0]);
      DeleteForgets(s, refs[0]);
      DeleteShape(s, refs[0]);
      HeadApart(refs);
      var s1 := Delete(s, refs[0]).value;
      DeleteEachForgets(s1, refs[1..]);
      assert Elements(refs) == {refs[0]} + Elements(refs[1..]);
      ForgetsTwice(s, s1, DeleteEach(s1, refs[1..]).value, {refs[0]}, Elements(refs[1..]));
    }
  }

  lemma ForgetsNothing(s: State)
    ensures OnlyForgets(s, s, {})
  {
  }

  lemma {:induction false} DeleteEachKeepsOtherLists(s: State, refs: seq<Ref>, node: NodeId, org: Originator)
    requires Inv(s) && NoDuplicates(refs) && forall r :: r in refs ==> BelongsOn(s, node, org, r)
    ensures DeleteEach(s, refs).Done? && DeleteEach(s, refs).value.nodes.Keys == s.nodes.Keys
    ensures forall n, o :: n in s.nodes && (n != node || o != org) ==> ListOf(DeleteEach(s, refs).value, n, o) == ListOf(s, n, o)
    decreases |refs|
  {
    hide Inv, Delete;
    if refs != [] {
      assert refs[0] in refs;
      DeleteKeeps(s, refs[0]);
      DeleteForgets(s, refs[0]);
      DeleteShape(s, refs[0]);
      HeadApart(refs);
      DeleteEachKeepsOtherLists(Delete(s, refs[0]).value, refs[1..], node, org);
    }
  }

  lemma ForgetsTwice(s: State, s1: State, t: State, gone: set<Ref>, more: set<Ref>)
    requires OnlyForgets(s, s1, gone) && OnlyForgets(s1, t, more)
    ensures OnlyForgets(s, t, gone + more)
  {
    assert forall r :: r in t.xacts ==> r in s1.xacts;
  }

  function OnNode(s: State, node: NodeId): set<Ref> {
    set r | r in s.xacts && s.xacts[r].node == node
  }

  /** delete_all empties both lists of its node, and elsewhere only clears partners that are gone. */
  lemma DeleteAllExact(s: State, node: NodeId)
    requires Inv(s) && node in s.nodes
    ensures DeleteAll(s, node).Done?
    ensures var t := DeleteAll(s, node).value;
      && t.nodes == s.nodes[node := Lists([], [])]
      && OnlyForgets(s, t, OnNode(s, node))
      && t.sent == s.sent && t.now == s.now
  {
    hide XactOk, RemoteUnique, PacketsOk, IdsOk, SentOk, SlotsOk, PoolOk, Matched, ListsOk, OnlyForgets, DeleteEach;
    DeleteAllKeeps(s, node);
    DeleteAllSendsNothing(s, node);
    OnListIsLive(s, node, Local);
    var locals := s.nodes[node].local;
    DeleteEachForgets(s, locals);
    DeleteEachKeeps(s, locals);
    DeleteEachFrame(s, locals);
    DeleteEachKeepsOtherLists(s, locals, node, Local);
    var s1 := DeleteEach(s, locals).value;
    OnListIsLive(s1, node, Remote);
    var remotes := s1.nodes[node].remote;
    DeleteEachForgets(s1, remotes);
    DeleteEachKeepsOtherLists(s1, remotes, node, Remote);
    DeleteEachFrame(s1, remotes);
    DeleteAllEmpties(s, DeleteEach(s1, remotes).value, node);
    ForgetsTwice(s, s1, DeleteEach(s1, remotes).value, Elements(locals), Elements(remotes));
    assert Elements(locals) + Elements(remotes) == OnNode(s, node);
  }

  lemma HasElement<T(!new)>(s: seq<T>)
    ensures s == [] || exists x :: x in s
  {
    if s != [] { assert s[0] in s; }
  }

  lemma DeleteAllEmpties(s: State, t: State, node: NodeId)
    requires ListsOk(t) && node in s.nodes && t.nodes.Keys == s.nodes.Keys
    requires forall r :: r in t.xacts ==> t.xacts[r].node != node
    requires forall n, org :: n in s.nodes && n != node ==> ListOf(t, n, org) == ListOf(s, n, org)
    ensures t.nodes == s.nodes[node := Lists([], [])]
  {
    OnListIsLive(t, node, Local);
    OnListIsLive(t, node, Remote);
    HasElement(t.nodes[node].local);
    HasElement(t.nodes[node].remote);
    forall n | n in s.nodes && n != node
      ensures t.nodes[n] == s.nodes[n]
    {
      assert ListOf(t, n, Local) == ListOf(s, n, Local) && ListOf(t, n, Remote) == ListOf(s, n, Remote);
    }
  }
}
