/** The GTPv2-C transaction layer, with its transactions as objects updated in place. */
module GtpXact {
  import opened Wrappers
  import opened GtpMessages
  import opened GtpXactModel
  import opened GtpXactInvariant
  import opened GtpXactLaws

  class Transaction {
    const org: Originator
    const xid: Xid
    const node: NodeId
    var step: nat
    var slots: History
    var response: Option<Time>
    var responseCount: nat
    var holding: Option<Time>
    var holdingCount: nat
    var partner: Option<Ref>

    ghost function Record(): Xact
      reads this
    {
      Xact(org, xid, node, step, slots, response, responseCount, holding, holdingCount, partner)
    }

    constructor (org: Originator, xid: Xid, node: NodeId)
      ensures Record() == FreshXact(org, xid, node)
    {
      this.org, this.xid, this.node := org, xid, node;
      step, slots := 0, [EMPTY, EMPTY, EMPTY];
      response, responseCount := None, T3_RESPONSE_RETRIES;
      holding, holdingCount := None, T3_DUPLICATED_RETRIES;
      partner := None;
    }

    /** Store a message of our own at the current step, under its header. */
    method UpdateTx(kind: Kind, teid: nat, buffer: Buffer) returns (ok: bool)
      modifies this`step, this`slots
      ensures ok <==> GtpXactModel.UpdateTx(old(Record()), kind, teid, buffer).Done?
      ensures ok ==> Record() == GtpXactModel.UpdateTx(old(Record()), kind, teid, buffer).value
      ensures ok ==>
        var packet := Packet(buffer.id, kind, (|buffer.body| + 8) % 0x1_0000, teid, xid * 256, buffer.body);
        old(step) < 3 && step == old(step) + 1 && slots == old(slots)[old(step) := Slot(kind, Some(packet))]
    {
      var stage := StageOf(kind, xid);
      match org {
        case Local =>
          match stage {
            case Initial => if step != 0 { return false; }
            case Final => if step != 2 { return false; }
            case _ => return false;
          }
        case Remote =>
          match stage {
            case Intermediate => if step != 1 { return false; }
            case Final => if step != 1 { return false; }
            case _ => return false;
          }
      }
      slots := slots[step := Slot(kind, Some(HeaderOn(buffer, kind, teid, xid)))];
      step := step + 1;
      ok := true;
    }

    /** Take in a message from the other side: accept it, or recognise it as a repeat. */
    method UpdateRx(kind: Kind, now: Time) returns (status: Outcome<Status>, resend: Option<Packet>)
      modifies this`step, this`slots, this`response, this`holding
      ensures status.Done? <==> GtpXactModel.UpdateRx(old(Record()), kind, now).Done?
      ensures status.Done? ==>
        var reception := GtpXactModel.UpdateRx(old(Record()), kind, now).value;
        && Record() == reception.x
        && status.value == (if reception.Accepted? then Ok else Retry)
        && resend == (if reception.Duplicate? then reception.resend else None)
    {
      resend := None;
      match org {
        case Local =>
          match StageOf(kind, xid) {
            case Intermediate =>
              if slots[1].kind == kind {
                if !(step == 2 || step == 3) { return Abort, None; }
                resend := slots[2].packet;
                if resend.Some? { holding := Some(now + T3_DUPLICATED); }
                return Done(Retry), resend;
              }
              if step != 1 { return Abort, None; }
              holding := Some(now + T3_DUPLICATED);
            case Final => if step != 1 { return Abort, None; }
            case _ => return Abort, None;
          }
        case Remote =>
          match StageOf(kind, xid) {
            case Initial =>
              if slots[0].kind == kind {
                if !(step == 1 || step == 2) { return Abort, None; }
                resend := slots[1].packet;
                if resend.Some? { holding := Some(now + T3_DUPLICATED); }
                return Done(Retry), resend;
              }
              if step != 0 { return Abort, None; }
              holding := Some(now + T3_DUPLICATED);
            case Final => if step != 2 { return Abort, None; }
            case _ => return Abort, None;
          }
      }
      response := None;
      slots := slots[step := Slot(kind, None)];
      step := step + 1;
      status := Done(Ok);
    }

    /** Decide what a commit does, and start the response timer when an answer is due. */
    method PrepareCommit(now: Time) returns (packet: Outcome<Option<Packet>>)
      modifies this`response
      ensures packet.Done? <==> CommitXact(old(Record()), now).Done?
      ensures packet.Done? ==>
        match CommitXact(old(Record()), now).value
        case Discard => packet.value.None? && Record() == old(Record())
        case Transmit(x, p) => packet.value == Some(p) && Record() == x
    {
      if !(1 <= step <= 3) { return Abort; }
      var last := slots[step - 1];
      match org {
        case Local =>
          match StageOf(last.kind, xid) {
            case Initial =>
              if step != 1 { return Abort; }
              response := Some(now + T3_RESPONSE);
            case Final =>
              if step == 2 { return Done(None); }
              if step != 3 { return Abort; }
            case _ => return Abort;
          }
        case Remote =>
          match StageOf(last.kind, xid) {
            case Intermediate =>
              if step != 2 { return Abort; }
              response := Some(now + T3_RESPONSE);
            case Final =>
              if step == 3 { return Done(None); }
              if step != 2 { return Abort; }
            case _ => return Abort;
          }
      }
      if last.packet.None? { return Abort; }
      packet := Done(last.packet);
    }
  }

  /** One peer: pool, node lists, clock. Ghost fields record the past. */
  class Layer {
    var now: Time
    var lastId: Xid
    const size: nat
    var free: seq<Ref>
    var live: map<Ref, Transaction>
    var nodes: map<NodeId, Lists>
    ghost var sent: seq<Sending>
    ghost var created: nat
    ghost var births: map<Ref, nat>
    ghost var given: set<nat>
    ghost var freed: seq<nat>

    function At(r: Ref): Transaction
      requires r in live
      reads this`live
    {
      live[r]
    }

    ghost function Records(): map<Ref, Xact>
      reads this, live.Values
    {
      map r | r in live :: live[r].Record()
    }

    ghost function View(): State
      reads this, live.Values
    {
      State(now, lastId, size, free, Records(), nodes, sent, created, births, given, freed)
    }

    /** Different pool slots hold different objects. */
    ghost predicate Separate()
      reads this
    {
      forall r, q :: r in live && q in live && r != q ==> live[r] != live[q]
    }

    ghost predicate Valid()
      reads this, live.Values
    {
      Separate() && Inv(View())
    }

    constructor (size: nat, known: set<NodeId>)
      ensures Valid() && View() == InitialState(size, known)
    {
      now, lastId, this.size := 0, 0, size;
      free := seq(size, i requires 0 <= i < size => i + 1);
      live := map[];
      nodes := map n | n in known :: Lists([], []);
      sent, created, births, given, freed := [], 0, map[], {}, [];
      new;
      InitialInv(size, known);
      assert View() == InitialState(size, known);
    }

    /** Time passes; the owner of the clock then fires the timers that are due. */
    method Advance(delay: Time)
      requires Valid()
      modifies this`now
      ensures Valid() && Step(old(View()), EvAdvance(delay)) == Done(View())
    {
      hide Inv;
      StepKeeps(View(), EvAdvance(delay), View().(now := now + delay));
      now := now + delay;
      assert View() == old(View()).(now := now);
    }

    /** Hand a packet to the network. */
    ghost method Transmitted(node: NodeId, packet: Packet)
      modifies this`sent
      ensures View() == Send(old(View()), node, packet) && Records() == old(Records())
    {
      sent := sent + [Sending(now, node, packet)];
      assert Records() == old(Records());
    }

    /** Take a pool slot for a new transaction and append it to its list. */
    method Register(x: Transaction)
      requires Separate() && free != [] && free[0] !in live && x.node in nodes && x !in live.Values
      modifies this`free, this`live, this`nodes
      ensures Separate() && View() == Insert(old(View()), x.Record())
      ensures live == old(live)[old(free)[0] := x]
    {
      var r := free[0];
      free := free[1..];
      live := live[r := x];
      var lists := nodes[x.node];
      if x.org.Local? {
        nodes := nodes[x.node := lists.(local := lists.local + [r])];
      } else {
        nodes := nodes[x.node := lists.(remote := lists.remote + [r])];
      }
      assert Records() == old(Records())[r := x.Record()];
    }

    /** A transaction of our own with its first message, under the next identifier. */
    method NewLocal(node: NodeId, kind: Kind, teid: nat, buffer: Buffer) returns (x: Outcome<Transaction>)
      modifies this`lastId
      ensures lastId == NextId(old(lastId))
      ensures var updated := GtpXactModel.UpdateTx(FreshXact(Local, lastId, node), kind, teid, buffer);
        && (x.Done? <==> updated.Done?)
        && (x.Done? ==> fresh(x.value) && x.value.Record() == updated.value && x.value.node == node)
    {
      lastId := NextId(lastId);
      var created := new Transaction(Local, lastId, node);
      var ok := created.UpdateTx(kind, teid, buffer);
      x := if ok then Done(created) else Abort;
    }

    method LocalCreate(node: NodeId, kind: Kind, teid: nat, buffer: Buffer) returns (xact: Outcome<Ref>)
      requires Valid() && node in nodes && buffer.id !in given
      modifies this`lastId, this`free, this`live, this`nodes, this`created, this`births, this`given
      ensures xact.Done? <==> GtpXactModel.LocalCreate(old(View()), node, kind, teid, buffer).Done?
      ensures xact.Done? ==>
        && Valid() && GtpXactModel.LocalCreate(old(View()), node, kind, teid, buffer) == Done(View())
        && old(free) != [] && xact.value == old(free)[0]
        && free == old(free)[1..] && lastId == (if old(lastId) >= 0x80_0000 then 1 else old(lastId) + 1)
        && nodes == old(nodes)[node := Lists(old(nodes)[node].local + [xact.value], old(nodes)[node].remote)]
    {
      hide Inv, GtpXactModel.UpdateTx, Insert, NextId, FreshXact;
      if free == [] { return Abort; }
      ghost var before := View();
      var r := free[0];
      FreeIsNotLive(before);
      var x := NewLocal(node, kind, teid, buffer);
      if x.Abort? { return Abort; }
      created := created + 1;
      births := births[r := created];
      given := given + {buffer.id};
      assert Records() == before.xacts;
      Register(x.value);
      LocalCreateKeeps(before, node, kind, teid, buffer);
      CreatedTables(before, node, kind, teid, buffer);
      xact := Done(r);
    }

    /** Store the answer of a live transaction. */
    method UpdateTx(r: Ref, kind: Kind, teid: nat, buffer: Buffer) returns (ok: bool)
      requires Valid() && r in live && buffer.id !in given
      modifies this`given, At(r)`step, At(r)`slots
      ensures ok <==> Answer(old(View()), r, kind, teid, buffer).Done?
      ensures ok ==> Valid() && Answer(old(View()), r, kind, teid, buffer) == Done(View())
    {
      hide Inv, GtpXactModel.UpdateTx;
      ghost var before := View();
      ok := live[r].UpdateTx(kind, teid, buffer);
      if ok {
        given := given + {buffer.id};
        assert Records() == before.xacts[r := live[r].Record()];
        AnswerKeeps(before, r, kind, teid, buffer);
      }
    }

    /** Search a list for an identifier. */
    method FindOn(list: seq<Ref>, xid: Xid) returns (found: Option<Ref>)
      requires forall r :: r in list ==> r in live
      ensures found == FirstWithXid(list, Records(), xid)
      ensures match found
        case None => forall j :: 0 <= j < |list| ==> live[list[j]].xid != xid
        case Some(r) =>
          exists i :: 0 <= i < |list| && list[i] == r && live[r].xid == xid && forall j :: 0 <= j < i ==> live[list[j]].xid != xid
    {
      var i := 0;
      while i < |list|
        invariant 0 <= i <= |list|
        invariant FirstWithXid(list, Records(), xid) == FirstWithXid(list[i..], Records(), xid)
        invariant forall j :: 0 <= j < i ==> live[list[j]].xid != xid
      {
        assert list[i] in list;
        if live[list[i]].xid == xid {
          return Some(list[i]);
        }
        assert list[i..][1..] == list[i + 1..];
        i := i + 1;
      }
      found := None;
    }

    method FindByXid(node: NodeId, kind: Kind, xid: Xid) returns (found: Outcome<Option<Ref>>)
      requires Valid() && node in nodes
      ensures found == GtpXactModel.FindByXid(View(), node, kind, xid)
    {
      hide SlotsOk, PoolOk, Matched, RemoteUnique, PacketsOk, IdsOk, SentOk;
      OnListIsLive(View(), node, Local);
      OnListIsLive(View(), node, Remote);
      var list;
      match StageOf(kind, xid) {
        case Initial => list := nodes[node].remote;
        case Intermediate => list := nodes[node].local;
        case Final => list := if Flagged(xid) then nodes[node].remote else nodes[node].local;
        case Unknown => return Abort;
      }
      var first := FindOn(list, xid);
      found := Done(first);
    }

    /** The transaction a message belongs to; a new remote one when there is none. */
    method FindOrCreate(node: NodeId, kind: Kind, sqn: Sqn) returns (xact: Outcome<Ref>)
      requires Valid() && node in nodes
      modifies this`free, this`live, this`nodes
      ensures var found := GtpXactModel.FindByXid(old(View()), node, kind, SqnToXid(sqn));
        && (xact.Done? <==> found.Done? && (found.value.Some? || old(free) != []))
        && (xact.Done? && found.value.Some? ==> xact.value == found.value.value && View() == old(View()) && live == old(live))
        && (xact.Done? && found.value.None? ==>
              && xact.value == old(free)[0] && xact.value !in old(live) && fresh(live.Values - old(live).Values)
              && View() == Insert(old(View()), FreshXact(Remote, SqnToXid(sqn), node))
              && xact.value in live && live[xact.value].Record() == FreshXact(Remote, SqnToXid(sqn), node))
      ensures xact.Done? ==> Separate() && xact.value in live
    {
      hide Inv, GtpXactModel.FindByXid;
      var found := FindByXid(node, kind, SqnToXid(sqn));
      if found.Abort? { return Abort; }
      if found.value.Some? { return Done(found.value.value); }
      if free == [] { return Abort; }
      xact := Done(free[0]);
      FreeIsNotLive(View());
      var x := new Transaction(Remote, SqnToXid(sqn), node);
      Register(x);
    }

    /** Let a live transaction take in a message. */
    method Absorb(r: Ref, kind: Kind) returns (status: Outcome<Status>, resend: Option<Packet>)
      requires Separate() && r in live
      modifies At(r)
      ensures Separate()
      ensures var reception := GtpXactModel.UpdateRx(old(View()).xacts[r], kind, now);
        && (status.Done? <==> reception.Done?)
        && (status.Done? ==>
              && View() == Put(old(View()), r, reception.value.x)
              && SamePlace(old(View()).xacts[r], reception.value.x)
              && status.value == (if reception.value.Accepted? then Ok else Retry)
              && resend == (if reception.value.Duplicate? then reception.value.resend else None))
    {
      hide GtpXactModel.UpdateRx;
      status, resend := live[r].UpdateRx(kind, now);
      assert Records() == old(Records())[r := live[r].Record()];
    }

    method Receive(node: NodeId, kind: Kind, sqn: Sqn) returns (status: Outcome<Status>, xact: Option<Ref>)
      requires Valid() && node in nodes
      modifies this`free, this`live, this`nodes, this`sent, live.Values
      ensures status.Done? <==> GtpXactModel.Receive(old(View()), node, kind, sqn).Done?
      ensures status.Done? ==>
        && Valid()
        && GtpXactModel.Receive(old(View()), node, kind, sqn) == Done(Received(View(), status.value, xact))
    {
      hide Inv, GtpXactModel.UpdateRx, Insert, Put, GtpXactModel.FindByXid;
      ghost var before := View();
      var target := FindOrCreate(node, kind, sqn);
      if target.Abort? { return Abort, None; }
      var r := target.value;
      ghost var x := View().xacts[r];
      var resend;
      status, resend := Absorb(r, kind);
      if status.Abort? { return status, None; }
      if r !in before.xacts {
        InsertThenPut(before, x, GtpXactModel.UpdateRx(x, kind, now).value.x);
      }
      ReceiveKeeps(before, node, kind, sqn);
      if resend.Some? {
        Transmitted(node, resend.value);
      }
      xact := if status.value.Ok? then Some(r) else None;
    }

    /** Clear both partners. */
    method Deassociate(a: Ref, b: Ref) returns (ok: bool)
      requires Separate() && a in live && b in live
      modifies At(a)`partner, At(b)`partner
      ensures ok <==> Unlink(old(View()), a, b).Done?
      ensures ok ==> Unlink(old(View()), a, b) == Done(View())
      ensures ok <==> old(live[a].partner).Some? && old(live[b].partner).Some?
      ensures ok ==> live[a].partner == live[b].partner == None
    {
      if live[a].partner.None? || live[b].partner.None? { return false; }
      live[a].partner := None;
      live[b].partner := None;
      ok := true;
      ghost var s1 := old(Records())[a := live[a].Record()];
      assert Records() == s1[b := s1[b].(partner := None)];
    }

    method Associate(a: Ref, b: Ref) returns (ok: bool)
      requires Valid() && a in live && b in live
      modifies At(a)`partner, At(b)`partner
      ensures ok <==> Link(old(View()), a, b).Done?
      ensures ok ==> Valid() && Link(old(View()), a, b) == Done(View())
      ensures ok <==> old(live[a].partner).None? && old(live[b].partner).None?
      ensures ok ==> live[a].partner == Some(b) && live[b].partner == Some(a)
    {
      hide Inv;
      if live[a].partner.Some? || live[b].partner.Some? { return false; }
      live[a].partner := Some(b);
      live[b].partner := Some(a);
      ok := true;
      ghost var s1 := old(Records())[a := old(live[a].Record()).(partner := Some(b))];
      assert Records() == s1[b := s1[b].(partner := Some(a))];
      LinkKeeps(old(View()), a, b);
    }

    /** Free the packets, clear the partner, leave the list and give the slot back. */
    method Delete(r: Ref)
      requires Valid() && r in live
      modifies this`free, this`live, this`nodes, this`births, this`freed, live.Values`partner
      ensures Valid() && GtpXactModel.Delete(old(View()), r) == Done(View())
      ensures live == old(live) - {r}
    {
      hide Inv, Release;
      ghost var before := View();
      DeleteKeeps(before, r);
      var x := live[r];
      if x.partner.Some? {
        assert Paired(before, r, x.partner.value);
        var ok := Deassociate(r, x.partner.value);
      }
      Unregister(r);
    }

    /** Free the packets, leave the list, and give the slot back. */
    method Unregister(r: Ref)
      requires Separate() && r in live && live[r].node in nodes
      modifies this`free, this`live, this`nodes, this`births, this`freed
      ensures Separate() && View() == Release(old(View()), r)
      ensures live == old(live) - {r}
    {
      hide Without, HeldBy, NoDuplicates;
      var x := live[r];
      freed := freed + HeldBy(x.slots);
      live := live - {r};
      births := births - {r};
      free := free + [r];
      var lists := nodes[x.node];
      if x.org.Local? {
        nodes := nodes[x.node := lists.(local := Without(lists.local, r))];
      } else {
        nodes := nodes[x.node := lists.(remote := Without(lists.remote, r))];
      }
      assert Records() == old(Records()) - {r};
    }

    method Commit(r: Ref) returns (ok: bool)
      requires Valid() && r in live
      modifies this`free, this`live, this`nodes, this`births, this`freed, this`sent, live.Values`partner, At(r)`response
      ensures ok <==> GtpXactModel.Commit(old(View()), r).Done?
      ensures ok ==> Valid() && GtpXactModel.Commit(old(View()), r) == Done(View())
    {
      hide Inv, CommitXact, GtpXactModel.Delete;
      ghost var before := View();
      DeleteKeeps(before, r);
      var x := live[r];
      var packet := x.PrepareCommit(now);
      assert Records() == before.xacts[r := x.Record()];
      if packet.Abort? { return false; }
      CommitKeeps(before, r);
      if packet.value.None? {
        assert Records() == before.xacts;
        Delete(r);
      } else {
        Transmitted(x.node, packet.value.value);
      }
      ok := true;
    }

    method ResponseTimeout(r: Ref)
      requires Valid() && r in live && Due(live[r].response, now)
      modifies this`free, this`live, this`nodes, this`births, this`freed, this`sent, live.Values`partner
      modifies At(r)`response, At(r)`responseCount
      ensures Valid() && GtpXactModel.ResponseTimeout(old(View()), r) == Done(View())
    {
      hide PoolOk, ListsOk, Matched, RemoteUnique, PacketsOk, IdsOk, SentOk, XactOk, GtpXactModel.Delete;
      ghost var before := View();
      DeleteKeeps(before, r);
      ResponseTimeoutShape(before, r);
      ResponseTimeoutKeeps(before, r);
      var x := live[r];
      if Decremented(x.responseCount) > 0 {
        x.responseCount := Decremented(x.responseCount);
        x.response := Some(now + T3_RESPONSE);
        assert Records() == before.xacts[r := x.Record()];
        var packet := x.slots[x.step - 1].packet;
        Transmitted(x.node, packet.value);
      } else {
        Delete(r);
      }
    }

    method HoldingTimeout(r: Ref)
      requires Valid() && r in live && Due(live[r].holding, now)
      modifies this`free, this`live, this`nodes, this`births, this`freed, live.Values`partner
      ensures Valid() && GtpXactModel.HoldingTimeout(old(View()), r) == Done(View())
    {
      hide PoolOk, ListsOk, Matched, RemoteUnique, PacketsOk, IdsOk, SentOk, GtpXactModel.Delete;
      DeleteKeeps(View(), r);
      HoldingTimeoutKeeps(View(), r);
      if Decremented(live[r].holdingCount) > 0 {
        assert false; // there is one retry only
      }
      Delete(r);
    }

    lemma LiveInView(r: Ref)
      requires Valid() && r in live
      ensures r in View().xacts && View().xacts[r].node in View().nodes
    {
      hide PoolOk, Matched, RemoteUnique, PacketsOk, IdsOk, SentOk;
    }

    lemma DeleteEachStep(s: State, refs: seq<Ref>, i: nat)
      requires i < |refs| && refs[i] in s.xacts && s.xacts[refs[i]].node in s.nodes
      ensures GtpXactModel.DeleteEach(s, refs[i..]) ==
        var t := GtpXactModel.Delete(s, refs[i]);
        if t.Abort? then Abort else GtpXactModel.DeleteEach(t.value, refs[i + 1..])
      ensures forall r :: r in refs[..i + 1] <==> r in refs[..i] || r == refs[i]
    {
      hide GtpXactModel.Delete;
      assert refs[i..][1..] == refs[i + 1..];
    }

    lemma NotBefore(refs: seq<Ref>, i: nat)
      requires NoDuplicates(refs) && i < |refs|
      ensures refs[i] !in refs[..i]
    {
    }

    lemma DeleteNone(s: State)
      ensures GtpXactModel.DeleteEach(s, []) == Done(s)
    {
    }

    /** Delete the transactions of a list, walking a snapshot of it. */
    method DeleteEach(refs: seq<Ref>)
      requires Valid() && NoDuplicates(refs) && forall r :: r in refs ==> r in live
      modifies this`free, this`live, this`nodes, this`births, this`freed, live.Values`partner
      ensures Valid() && GtpXactModel.DeleteEach(old(View()), refs) == Done(View())
      ensures forall r :: r in live <==> r in old(live) && r !in refs
      ensures forall r :: r in live ==> live[r] == old(live)[r]
    {
      hide *;
      var i := 0;
      assert refs[0..] == refs;
      while i < |refs|
        invariant 0 <= i <= |refs| && Valid()
        invariant GtpXactModel.DeleteEach(old(View()), refs) == GtpXactModel.DeleteEach(View(), refs[i..])
        invariant forall r :: r in live <==> r in old(live) && r !in refs[..i]
        invariant forall r :: r in live ==> live[r] == old(live)[r]
      {
        NotBefore(refs, i);
        LiveInView(refs[i]);
        DeleteEachStep(View(), refs, i);
        Delete(refs[i]);
        i := i + 1;
      }
      assert refs[..i] == refs;
      DeleteNone(View());
      assert refs[i..] == [];
    }

    method DeleteAll(node: NodeId)
      requires Valid() && node in nodes
      modifies this`free, this`live, this`nodes, this`births, this`freed, live.Values`partner
      ensures Valid() && GtpXactModel.DeleteAll(old(View()), node) == Done(View())
    {
      hide SlotsOk, PoolOk, Matched, RemoteUnique, PacketsOk, IdsOk, SentOk, ListsOk, GtpXactModel.DeleteEach;
      DeleteAllKeeps(View(), node);
      OnListIsLive(View(), node, Local);
      DeleteEachFrame(View(), nodes[node].local);
      DeleteEach(nodes[node].local);
      OnListIsLive(View(), node, Remote);
      DeleteEach(nodes[node].remote);
    }
  }
}
