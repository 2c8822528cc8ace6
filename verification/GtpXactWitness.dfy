/** Runs from the start that reach what the other modules speak of: a command taken in twice, and answers that
    are fatal. */
module GtpXactWitness {
  import opened Wrappers
  import opened GtpMessages
  import opened GtpXactModel
  import opened GtpXactInvariant
  import opened GtpXactSteps
  import opened GtpXactRuns
  import opened GtpXactExchange
  import opened GtpXactTight

  // ---- reachable states

  /** The end of a run of a peer with one pool slot and one node. */
  ghost predicate Reachable(node: NodeId, s: State) {
    exists states, events :: RunTo(node, states, events, s)
  }

  ghost predicate RunTo(node: NodeId, states: seq<State>, events: seq<Event>, s: State) {
    Run(states, events) && states[0] == InitialState(1, {node}) && states[|events|] == s
  }

  lemma ReachStep(node: NodeId, s: State, e: Event, t: State)
    requires Reachable(node, s) && Steps(s, e, t)
    ensures Reachable(node, t)
  {
    hide Steps, InitialState;
    var states, events :| RunTo(node, states, events, s);
    var ss, es := states + [t], events + [e];
    forall i | 0 <= i < |es|
      ensures Steps(ss[i], es[i], ss[i + 1])
    {
    }
    assert RunTo(node, ss, es, t);
  }

  lemma ReachStart(node: NodeId)
    ensures Reachable(node, InitialState(1, {node}))
  {
    hide InitialState;
    assert RunTo(node, [InitialState(1, {node})], [], InitialState(1, {node}));
  }

  lemma ReachableIsValid(node: NodeId, s: State)
    requires Reachable(node, s)
    ensures Inv(s)
  {
    hide Inv, Steps;
    var states, events :| RunTo(node, states, events, s);
    InitialInv(1, {node});
    RunKeeps(states, events, |events|);
  }

  // ---- counting up to any identifier

  function Below(n: nat): (ids: set<nat>)
    ensures forall i :: i in ids ==> i < n
  {
    if n == 0 then {} else Below(n - 1) + {n - 1}
  }

  function InTurn(n: nat): seq<nat> {
    if n == 0 then [] else InTurn(n - 1) + [n - 1]
  }

  /** After `n` local transactions have come and gone. */
  function Used(node: NodeId, n: nat): State {
    State(0, NthId(n), 1, [1], map[], map[node := Lists([], [])], [], n, map[], Below(n), InTurn(n))
  }

  /** A transaction of ours that waits, the `n + 1`st. */
  function Live(node: NodeId, n: nat, x: Xact, sent: seq<Sending>, given: set<nat>): State {
    State(0, NthId(n + 1), 1, [], map[1 := x], map[node := Lists([1], [])], sent, n + 1, map[1 := n + 1], given, InTurn(n))
  }

  function Ours(node: NodeId, xid: Xid, step: nat, slots: History, response: Option<Time>, holding: Option<Time>): Xact {
    Xact(Local, xid, node, step, slots, response, T3_RESPONSE_RETRIES, holding, T3_DUPLICATED_RETRIES, None)
  }

  function FirstPacket(n: nat, kind: Kind, xid: Xid): Packet {
    HeaderOn(Buffer(n, []), kind, 0, xid)
  }

  function FirstSlots(n: nat, kind: Kind, xid: Xid): History {
    [Slot(kind, Some(FirstPacket(n, kind, xid))), EMPTY, EMPTY]
  }

  lemma UseStep(node: NodeId, n: nat, kind: Kind)
    requires StageOf(kind, NthId(n + 1)).Initial?
    ensures var x := Ours(node, NthId(n + 1), 1, FirstSlots(n, kind, NthId(n + 1)), None, None);
      Steps(Used(node, n), EvCreate(node, kind, 0, Buffer(n, [])), Live(node, n, x, [], Below(n) + {n}))
  {
    hide Below, InTurn, NthId;
    NthIdNext(n);
    var xid := NthId(n + 1);
    var x := Ours(node, xid, 1, FirstSlots(n, kind, xid), None, None);
    assert [EMPTY, EMPTY, EMPTY][0 := FirstSlots(n, kind, xid)[0]] == FirstSlots(n, kind, xid);
    Overwritten(1, x, x);
    Overwritten(1, n + 1, n + 1);
    Overwritten(node, Lists([], []), Lists([1], []));
    assert [1][1..] == [] && [] + [1] == [1];
    assert UpdateTx(FreshXact(Local, xid, node), kind, 0, Buffer(n, [])) == Done(x);
  }

  /** Deleting the one transaction there is. */
  function Emptied(s: State, node: NodeId, held: seq<nat>): State {
    s.(xacts := map[], nodes := map[node := Lists([], [])], free := [1], births := map[], freed := s.freed + held)
  }

  lemma DeletesOnly(s: State, node: NodeId, x: Xact, birth: nat)
    requires s.xacts == map[1 := x] && x.org.Local? && x.node == node && x.partner.None?
    requires s.nodes == map[node := Lists([1], [])] && s.free == [] && s.births == map[1 := birth]
    ensures Delete(s, 1) == Done(Emptied(s, node, HeldBy(x.slots)))
  {
    hide HeldBy;
    Overwritten(1, x, x);
    Overwritten(1, birth, birth);
    Overwritten(node, Lists([1], []), Lists([], []));
    assert Without<Ref>([1], 1) == [] by { assert [1][1..] == []; }
    assert [] + [1] == [1];
  }

  lemma DeletesAll(s: State, node: NodeId, x: Xact, birth: nat)
    requires s.xacts == map[1 := x] && x.org.Local? && x.node == node && x.partner.None?
    requires s.nodes == map[node := Lists([1], [])] && s.free == [] && s.births == map[1 := birth]
    ensures Steps(s, EvDeleteAll(node), Emptied(s, node, HeldBy(x.slots)))
  {
    hide HeldBy, Delete;
    DeletesOnly(s, node, x, birth);
    var t := Emptied(s, node, HeldBy(x.slots));
    assert [1][1..] == [];
    assert DeleteEach(t, []) == Done(t);
    assert DeleteEach(s, [1]) == Done(t);
  }

  lemma DropStep(node: NodeId, n: nat, kind: Kind)
    ensures var x := Ours(node, NthId(n + 1), 1, FirstSlots(n, kind, NthId(n + 1)), None, None);
      Steps(Live(node, n, x, [], Below(n) + {n}), EvDeleteAll(node), Used(node, n + 1))
  {
    hide NthId, FirstPacket, HeldBy, Steps;
    var x := Ours(node, NthId(n + 1), 1, FirstSlots(n, kind, NthId(n + 1)), None, None);
    OnePacketHeld(x.slots);
    PacketId(n, kind, NthId(n + 1));
    DeletesAll(Live(node, n, x, [], Below(n) + {n}), node, x, n + 1);
    assert InTurn(n) + [n] == InTurn(n + 1);
  }

  lemma PacketId(n: nat, kind: Kind, xid: Xid)
    ensures FirstPacket(n, kind, xid).id == n
  {
  }

  lemma OnePacketHeld(slots: seq<Slot>)
    requires |slots| == 3 && slots[0].packet.Some? && slots[1].packet.None? && slots[2].packet.None?
    ensures HeldBy(slots) == [slots[0].packet.value.id]
  {
    assert slots[1..][0] == slots[1] && slots[1..][1..] == slots[2..] && slots[2..][0] == slots[2] && slots[2..][1..] == [];
    assert HeldBy(slots[2..]) == [];
    assert HeldBy(slots[1..]) == [];
  }

  /** Every number of local transactions can be reached, and with it every identifier. */
  lemma {:induction false} UsedIsReachable(node: NodeId, n: nat)
    ensures Reachable(node, Used(node, n))
  {
    hide Reachable, Steps;
    if n == 0 {
      ReachStart(node);
      IdleIsInitial(node);
    } else {
      UsedIsReachable(node, n - 1);
      var x := Ours(node, NthId(n), 1, FirstSlots(n - 1, CREATE_SESSION_REQUEST, NthId(n)), None, None);
      UseStep(node, n - 1, CREATE_SESSION_REQUEST);
      DropStep(node, n - 1, CREATE_SESSION_REQUEST);
      ReachStep(node, Used(node, n - 1), EvCreate(node, CREATE_SESSION_REQUEST, 0, Buffer(n - 1, [])),
                Live(node, n - 1, x, [], Below(n - 1) + {n - 1}));
      ReachStep(node, Live(node, n - 1, x, [], Below(n - 1) + {n - 1}), EvDeleteAll(node), Used(node, n));
    }
  }

  // ---- steps on the one transaction there is

  lemma CommitsTo(s: State, x: Xact, y: Xact, p: Packet)
    requires s.xacts == map[1 := x] && x.node in s.nodes && CommitXact(x, s.now) == Done(Transmit(y, p))
    ensures Steps(s, EvCommit(1), s.(xacts := map[1 := y], sent := s.sent + [Sending(s.now, x.node, p)]))
  {
    assert y.node == x.node;
    hide CommitXact, Delete;
    Overwritten(1, x, y);
  }

  lemma AnswersTo(s: State, x: Xact, y: Xact, kind: Kind, buffer: Buffer)
    requires s.xacts == map[1 := x] && x.node in s.nodes && buffer.id !in s.given
    requires UpdateTx(x, kind, 0, buffer) == Done(y)
    ensures Steps(s, EvAnswer(1, kind, 0, buffer), s.(xacts := map[1 := y], given := s.given + {buffer.id}))
  {
    hide UpdateTx;
    Overwritten(1, x, y);
  }

  lemma ReceivesTo(s: State, x: Xact, y: Xact, kind: Kind, sqn: Sqn)
    requires s.xacts == map[1 := x] && x.node in s.nodes && UpdateRx(x, kind, s.now) == Done(Accepted(y))
    requires FindByXid(s, x.node, kind, SqnToXid(sqn)) == Done(Some(1))
    ensures Steps(s, EvReceive(x.node, kind, sqn), s.(xacts := map[1 := y]))
  {
    hide UpdateRx, FindByXid;
    Overwritten(1, x, y);
  }

  // ---- a command under a flagged identifier

  const COMMAND := BEARER_RESOURCE_COMMAND
  const REQUEST := UPDATE_BEARER_REQUEST
  const RESPONSE := UPDATE_BEARER_RESPONSE

  /** The identifier with the command bit, and its sequence number. */
  const FLAGGED: Xid := MAX_XACT_ID

  function FlaggedSqn(): Sqn {
    XidToSqn(FLAGGED)
  }

  /** The command is the transaction that gets the flagged identifier. */
  predicate TurnOfFlagged(n: nat) {
    n % MAX_XACT_ID == MAX_XACT_ID - 1
  }

  lemma FlaggedIsNext(n: nat)
    requires TurnOfFlagged(n)
    ensures NthId(n + 1) == FLAGGED && Flagged(FLAGGED) && SqnToXid(FlaggedSqn()) == FLAGGED
    ensures StageOf(COMMAND, FLAGGED).Initial? && StageOf(REQUEST, FLAGGED).Intermediate? && StageOf(RESPONSE, FLAGGED).Final?
  {
  }

  function Command(n: nat): Packet {
    FirstPacket(n, COMMAND, FLAGGED)
  }

  function Triggered(): Packet {
    HeaderOn(Buffer(0, []), REQUEST, 0, FLAGGED)
  }

  function LastPacket(n: nat): Packet {
    HeaderOn(Buffer(n + 1, []), RESPONSE, 0, FLAGGED)
  }

  /** The requester, step by step. */
  function OursAt(path: Path, n: nat, i: nat): Xact {
    var a, b, c := Slot(COMMAND, Some(Command(n))), Slot(REQUEST, None), Slot(RESPONSE, Some(LastPacket(n)));
    if i == 0 then Ours(path.aNode, FLAGGED, 1, [a, EMPTY, EMPTY], None, None)
    else if i == 1 then Ours(path.aNode, FLAGGED, 1, [a, EMPTY, EMPTY], Some(T3_RESPONSE), None)
    else if i == 2 then Ours(path.aNode, FLAGGED, 2, [a, b, EMPTY], None, Some(T3_DUPLICATED))
    else Ours(path.aNode, FLAGGED, 3, [a, b, c], None, Some(T3_DUPLICATED))
  }

  /** The responder, step by step. */
  function TheirsAt(path: Path, i: nat): Xact {
    var a, b, c := Slot(COMMAND, None), Slot(REQUEST, Some(Triggered())), Slot(RESPONSE, None);
    var slots: History := if i == 0 then [a, EMPTY, EMPTY] else if i <= 2 then [a, b, EMPTY] else [a, b, c];
    Xact(Remote, FLAGGED, path.bNode, if i == 0 then 1 else if i <= 2 then 2 else 3, slots,
         if i == 2 then Some(T3_RESPONSE) else None, T3_RESPONSE_RETRIES, Some(T3_DUPLICATED), T3_DUPLICATED_RETRIES, None)
  }

  lemma OursProgress(path: Path, n: nat)
    ensures CommitXact(OursAt(path, n, 0), 0) == Done(Transmit(OursAt(path, n, 1), Command(n)))
    ensures UpdateRx(OursAt(path, n, 1), REQUEST, 0) == Done(Accepted(OursAt(path, n, 2)))
    ensures UpdateTx(OursAt(path, n, 2), RESPONSE, 0, Buffer(n + 1, [])) == Done(OursAt(path, n, 3))
    ensures CommitXact(OursAt(path, n, 3), 0) == Done(Transmit(OursAt(path, n, 3), LastPacket(n)))
  {
    var a, b := Slot(COMMAND, Some(Command(n))), Slot(REQUEST, None);
    assert [a, EMPTY, EMPTY][1 := b] == [a, b, EMPTY];
    assert [a, b, EMPTY][2 := Slot(RESPONSE, Some(LastPacket(n)))] == [a, b, Slot(RESPONSE, Some(LastPacket(n)))];
  }

  lemma TheirsProgress(path: Path)
    ensures UpdateRx(FreshXact(Remote, FLAGGED, path.bNode), COMMAND, 0) == Done(Accepted(TheirsAt(path, 0)))
    ensures UpdateTx(TheirsAt(path, 0), REQUEST, 0, Buffer(0, [])) == Done(TheirsAt(path, 1))
    ensures CommitXact(TheirsAt(path, 1), 0) == Done(Transmit(TheirsAt(path, 2), Triggered()))
    ensures UpdateRx(TheirsAt(path, 2), RESPONSE, 0) == Done(Accepted(TheirsAt(path, 3)))
    ensures CommitXact(TheirsAt(path, 3), 0) == Done(Discard)
  {
    var a, b := Slot(COMMAND, None), Slot(REQUEST, Some(Triggered()));
    assert [EMPTY, EMPTY, EMPTY][0 := a] == [a, EMPTY, EMPTY];
    assert [a, EMPTY, EMPTY][1 := b] == [a, b, EMPTY];
    assert [a, b, EMPTY][2 := Slot(RESPONSE, None)] == [a, b, Slot(RESPONSE, None)];
  }

  // ---- the worlds of the run

  function AState(path: Path, n: nat, i: nat, packets: nat, given: set<nat>): State {
    var first, last := Sending(0, path.aNode, Command(n)), Sending(0, path.aNode, LastPacket(n));
    State(0, FLAGGED, 1, [], map[1 := OursAt(path, n, i)], map[path.aNode := Lists([1], [])],
          if packets == 0 then [] else if packets == 1 then [first] else [first, last],
          n + 1, map[1 := n + 1], given, InTurn(n))
  }

  function BState(path: Path, i: nat, sent: seq<Sending>, given: set<nat>, freed: seq<nat>): State {
    State(0, 0, 1, [], map[1 := TheirsAt(path, i)], map[path.bNode := Lists([], [1])], sent, 0, map[], given, freed)
  }

  function BFree(path: Path, sent: seq<Sending>, given: set<nat>, freed: seq<nat>): State {
    State(0, 0, 1, [1], map[], map[path.bNode := Lists([], [])], sent, 0, map[], given, freed)
  }

  lemma BTakes(path: Path, sent: seq<Sending>, given: set<nat>, freed: seq<nat>)
    ensures var s := BFree(path, sent, given, freed);
      && Steps(s, EvReceive(path.bNode, COMMAND, FlaggedSqn()), BState(path, 0, sent, given, freed))
      && Receive(s, path.bNode, COMMAND, FlaggedSqn()).Done?
      && Receive(s, path.bNode, COMMAND, FlaggedSqn()).value.status.Ok?
  {
    hide UpdateRx, TheirsAt, FreshXact;
    var s := BFree(path, sent, given, freed);
    TheirsProgress(path);
    assert TheirsAt(path, 0).node == path.bNode && TheirsAt(path, 0).org.Remote? by { TheirsOf(path, 0); }
    Overwritten(1, TheirsAt(path, 0), TheirsAt(path, 0));
    Overwritten(path.bNode, Lists([], []), Lists([], [1]));
    assert [1][1..] == [] && [] + [1] == [1];
    assert FindByXid(s, path.bNode, COMMAND, FLAGGED) == Done(None);
  }

  lemma TheirsOf(path: Path, i: nat)
    ensures var x := TheirsAt(path, i); x.node == path.bNode && x.org.Remote? && x.xid == FLAGGED && x.partner.None?
  {
  }

  lemma BAnswers(path: Path)
    ensures Steps(BState(path, 0, [], {}, []), EvAnswer(1, REQUEST, 0, Buffer(0, [])), BState(path, 1, [], {0}, []))
    ensures Steps(BState(path, 1, [], {0}, []), EvCommit(1), BState(path, 2, [Sending(0, path.bNode, Triggered())], {0}, []))
  {
    hide UpdateTx, CommitXact, TheirsAt, Steps;
    TheirsProgress(path);
    TheirsOf(path, 0);
    TheirsOf(path, 1);
    AnswersTo(BState(path, 0, [], {}, []), TheirsAt(path, 0), TheirsAt(path, 1), REQUEST, Buffer(0, []));
    CommitsTo(BState(path, 1, [], {0}, []), TheirsAt(path, 1), TheirsAt(path, 2), Triggered());
    assert [] + [Sending(0, path.bNode, Triggered())] == [Sending(0, path.bNode, Triggered())] && {} + {0} == {0};
  }

  lemma BCloses(path: Path, sent: seq<Sending>)
    ensures Steps(BState(path, 2, sent, {0}, []), EvReceive(path.bNode, RESPONSE, FlaggedSqn()), BState(path, 3, sent, {0}, []))
    ensures Steps(BState(path, 3, sent, {0}, []), EvCommit(1), BFree(path, sent, {0}, [0]))
  {
    hide UpdateRx, Steps;
    TheirsProgress(path);
    assert FirstWithXid([1], map[1 := TheirsAt(path, 2)], FLAGGED) == Some(1);
    ReceivesTo(BState(path, 2, sent, {0}, []), TheirsAt(path, 2), TheirsAt(path, 3), RESPONSE, FlaggedSqn());
    BDeletes(path, sent);
  }

  lemma BDeletes(path: Path, sent: seq<Sending>)
    ensures Steps(BState(path, 3, sent, {0}, []), EvCommit(1), BFree(path, sent, {0}, [0]))
  {
    var x := TheirsAt(path, 3);
    hide CommitXact;
    TheirsProgress(path);
    MiddlePacketHeld(x.slots);
    assert Without<Ref>([1], 1) == [] by { assert [1][1..] == []; }
    Overwritten(1, x, x);
    Overwritten(path.bNode, Lists([], [1]), Lists([], []));
    assert [] + [1] == [1] && [] + [0] == [0];
    var births: map<Ref, nat> := map[];
    assert births - {1} == births;
  }

  lemma MiddlePacketHeld(slots: seq<Slot>)
    requires |slots| == 3 && slots[0].packet.None? && slots[1].packet.Some? && slots[2].packet.None?
    ensures HeldBy(slots) == [slots[1].packet.value.id]
  {
    assert slots[1..][0] == slots[1] && slots[1..][1..] == slots[2..] && slots[2..][0] == slots[2] && slots[2..][1..] == [];
    assert HeldBy(slots[2..]) == [];
    assert HeldBy(slots[1..]) == [slots[1].packet.value.id] + [];
  }

  lemma ACreates(path: Path, n: nat)
    requires TurnOfFlagged(n)
    ensures Steps(Used(path.aNode, n), EvCreate(path.aNode, COMMAND, 0, Buffer(n, [])), AState(path, n, 0, 0, Below(n) + {n}))
    ensures Steps(AState(path, n, 0, 0, Below(n) + {n}), EvCommit(1), AState(path, n, 1, 1, Below(n) + {n}))
  {
    hide CommitXact, Steps, Below, NthId;
    FlaggedIsNext(n);
    UseStep(path.aNode, n, COMMAND);
    OursProgress(path, n);
    CommitsTo(AState(path, n, 0, 0, Below(n) + {n}), OursAt(path, n, 0), OursAt(path, n, 1), Command(n));
    assert [] + [Sending(0, path.aNode, Command(n))] == [Sending(0, path.aNode, Command(n))];
  }

  lemma AAnswers(path: Path, n: nat)
    ensures var given := Below(n) + {n};
      && Steps(AState(path, n, 1, 1, given), EvReceive(path.aNode, REQUEST, FlaggedSqn()), AState(path, n, 2, 1, given))
      && Steps(AState(path, n, 2, 1, given), EvAnswer(1, RESPONSE, 0, Buffer(n + 1, [])), AState(path, n, 3, 1, given + {n + 1}))
      && Steps(AState(path, n, 3, 1, given + {n + 1}), EvCommit(1), AState(path, n, 3, 2, given + {n + 1}))
  {
    hide CommitXact, UpdateTx, UpdateRx, Steps, Below, InTurn;
    var given := Below(n) + {n};
    OursProgress(path, n);
    assert FirstWithXid([1], map[1 := OursAt(path, n, 1)], FLAGGED) == Some(1);
    ReceivesTo(AState(path, n, 1, 1, given), OursAt(path, n, 1), OursAt(path, n, 2), REQUEST, FlaggedSqn());
    AnswersTo(AState(path, n, 2, 1, given), OursAt(path, n, 2), OursAt(path, n, 3), RESPONSE, Buffer(n + 1, []));
    CommitsTo(AState(path, n, 3, 1, given + {n + 1}), OursAt(path, n, 3), OursAt(path, n, 3), LastPacket(n));
    var first, last := Sending(0, path.aNode, Command(n)), Sending(0, path.aNode, LastPacket(n));
    assert [first] + [last] == [first, last];
  }

  function CommandWorlds(path: Path, n: nat): seq<World> {
    var given := Below(n) + {n};
    var sent := [Sending(0, path.bNode, Triggered())];
    [World(Used(path.aNode, n), BFree(path, [], {}, [])),
     World(AState(path, n, 0, 0, given), BFree(path, [], {}, [])),
     World(AState(path, n, 1, 1, given), BFree(path, [], {}, [])),
     World(AState(path, n, 1, 1, given), BState(path, 0, [], {}, [])),
     World(AState(path, n, 1, 1, given), BState(path, 1, [], {0}, [])),
     World(AState(path, n, 1, 1, given), BState(path, 2, sent, {0}, [])),
     World(AState(path, n, 2, 1, given), BState(path, 2, sent, {0}, [])),
     World(AState(path, n, 3, 1, given + {n + 1}), BState(path, 2, sent, {0}, [])),
     World(AState(path, n, 3, 2, given + {n + 1}), BState(path, 2, sent, {0}, [])),
     World(AState(path, n, 3, 2, given + {n + 1}), BState(path, 3, sent, {0}, [])),
     World(AState(path, n, 3, 2, given + {n + 1}), BFree(path, sent, {0}, [0])),
     World(AState(path, n, 3, 2, given + {n + 1}), BState(path, 0, sent, {0}, [0]))]
  }

  function CommandScript(path: Path, n: nat): seq<Move> {
    [AtA(EvCreate(path.aNode, COMMAND, 0, Buffer(n, []))), AtA(EvCommit(1)),
     AtB(EvReceive(path.bNode, COMMAND, FlaggedSqn())), AtB(EvAnswer(1, REQUEST, 0, Buffer(0, []))), AtB(EvCommit(1)),
     AtA(EvReceive(path.aNode, REQUEST, FlaggedSqn())), AtA(EvAnswer(1, RESPONSE, 0, Buffer(n + 1, []))), AtA(EvCommit(1)),
     AtB(EvReceive(path.bNode, RESPONSE, FlaggedSqn())), AtB(EvCommit(1)),
     AtB(EvReceive(path.bNode, COMMAND, FlaggedSqn()))]
  }

  lemma PacketsUnderWay(path: Path, n: nat, i: nat, packets: nat, given: set<nat>, b: State)
    requires path.delay > 0 && 1 <= packets <= 2 && b.now == 0
    ensures InTransit(World(AState(path, n, i, packets, given), b), path, COMMAND, FlaggedSqn())
    ensures packets == 2 ==> InTransit(World(AState(path, n, i, packets, given), b), path, RESPONSE, FlaggedSqn())
  {
    var w := World(AState(path, n, i, packets, given), b);
    assert IsCopyOf(w.a.sent[0], w.b.now, path, COMMAND, FlaggedSqn());
    assert packets == 2 ==> IsCopyOf(w.a.sent[1], w.b.now, path, RESPONSE, FlaggedSqn());
  }

  lemma CommandMoves(path: Path, n: nat, i: nat)
    requires path.delay > 0 && TurnOfFlagged(n) && i < 11
    ensures Moves(CommandWorlds(path, n)[i], CommandScript(path, n)[i], CommandWorlds(path, n)[i + 1], path)
  {
    hide Steps, InTransit, AState, BState, BFree, Used, Below;
    var given := Below(n) + {n};
    var sent := [Sending(0, path.bNode, Triggered())];
    ACreates(path, n);
    AAnswers(path, n);
    BAnswers(path);
    BCloses(path, sent);
    if i == 2 {
      BTakes(path, [], {}, []);
      PacketsUnderWay(path, n, 1, 1, given, BFree(path, [], {}, [])) by { AtZero(path); }
    } else if i == 8 {
      PacketsUnderWay(path, n, 3, 2, given + {n + 1}, BState(path, 2, sent, {0}, [])) by { AtZero(path); }
    } else if i == 10 {
      BTakes(path, sent, {0}, [0]);
      PacketsUnderWay(path, n, 3, 2, given + {n + 1}, BFree(path, sent, {0}, [0])) by { AtZero(path); }
    }
  }

  lemma AtZero(path: Path)
    ensures BFree(path, [], {}, []).now == 0
    ensures forall i, sent :: BState(path, i, sent, {0}, []).now == 0
    ensures forall sent :: BFree(path, sent, {0}, [0]).now == 0
  {
  }

  lemma CommandIsExchange(path: Path, n: nat)
    requires path.delay > 0 && TurnOfFlagged(n)
    ensures Exchange(CommandWorlds(path, n), CommandScript(path, n), path, Request(FLAGGED, COMMAND, 0))
  {
    hide Moves, Steps, Inv, Below, InTurn;
    var worlds, moves, req := CommandWorlds(path, n), CommandScript(path, n), Request(FLAGGED, COMMAND, 0);
    forall i | 0 <= i < |moves|
      ensures Moves(worlds[i], moves[i], worlds[i + 1], path)
    {
      CommandMoves(path, n, i);
    }
    UsedIsReachable(path.aNode, n);
    ReachableIsValid(path.aNode, Used(path.aNode, n));
    IdleIsInitial(path.bNode);
    FlaggedIsNext(n);
    NthIdNext(n);
    assert Ready(worlds[0], path, req);
    forall i | 2 <= i < |moves|
      ensures Proper(worlds[i], moves[i], path, req)
    {
    }
  }

  /** From the start of both peers: a command is taken in, triggers a request, is answered, and is taken in again. */
  lemma CommandTakenTwice(path: Path, n: nat)
    requires path.delay > 0 && TurnOfFlagged(n)
    ensures var worlds, moves, req := CommandWorlds(path, n), CommandScript(path, n), Request(FLAGGED, COMMAND, 0);
      && Reachable(path.aNode, worlds[0].a) && Reachable(path.bNode, worlds[0].b)
      && TwiceAccepted(worlds, moves, path, req) && LateCopy(moves, path, req)
  {
    hide Exchange, Receive, Steps, Below, InTurn, Reachable;
    var worlds, moves, req := CommandWorlds(path, n), CommandScript(path, n), Request(FLAGGED, COMMAND, 0);
    var sent := [Sending(0, path.bNode, Triggered())];
    FlaggedIsNext(n);
    UsedIsReachable(path.aNode, n);
    ReachStart(path.bNode);
    IdleIsInitial(path.bNode);
    CommandIsExchange(path, n);
    BTakes(path, [], {}, []);
    BTakes(path, sent, {0}, [0]);
    assert Accepts(worlds, moves, path, req, 2) && Accepts(worlds, moves, path, req, 10);
    assert IsFinal(moves[8], path, req) && IsCopy(moves[10], path, req);
  }

  // ---- answers that are fatal

  /** A request that was sent, and then answered. */
  function Asked(node: NodeId): State {
    var x := Ours(node, 1, 1, FirstSlots(0, CREATE_SESSION_REQUEST, 1), Some(T3_RESPONSE), None);
    Live(node, 0, x, [Sending(0, node, FirstPacket(0, CREATE_SESSION_REQUEST, 1))], {0})
  }

  function Answered(node: NodeId): State {
    var slots := FirstSlots(0, CREATE_SESSION_REQUEST, 1)[1 := Slot(CREATE_SESSION_RESPONSE, None)];
    Asked(node).(xacts := map[1 := Ours(node, 1, 2, slots, None, None)])
  }

  lemma AnsweredIsReachable(node: NodeId)
    ensures Reachable(node, Answered(node))
  {
    hide Steps, Reachable;
    var kind, packet := CREATE_SESSION_REQUEST, FirstPacket(0, CREATE_SESSION_REQUEST, 1);
    var x := Ours(node, 1, 1, FirstSlots(0, kind, 1), None, None);
    var y, z := Asked(node).xacts[1], Answered(node).xacts[1];
    UsedIsReachable(node, 0);
    UseStep(node, 0, kind);
    assert {} + {0} == {0} && Below(0) + {0} == {0};
    ReachStep(node, Used(node, 0), EvCreate(node, kind, 0, Buffer(0, [])), Live(node, 0, x, [], {0}));
    CommitsTo(Live(node, 0, x, [], {0}), x, y, packet);
    assert [] + [Sending(0, node, packet)] == [Sending(0, node, packet)];
    ReachStep(node, Live(node, 0, x, [], {0}), EvCommit(1), Asked(node));
    assert FirstWithXid([1], map[1 := y], 1) == Some(1);
    ReceivesTo(Asked(node), y, z, CREATE_SESSION_RESPONSE, 256);
    ReachStep(node, Asked(node), EvReceive(node, CREATE_SESSION_RESPONSE, 256), Answered(node));
  }

  /** From the start of a peer: a response that arrives twice is fatal, before and after the commit. */
  lemma RepeatedResponseHappens(node: NodeId)
    ensures var s := Answered(node);
      && Reachable(node, s)
      && Receive(s, node, CREATE_SESSION_RESPONSE, 256).Abort?
      && Commit(s, 1).Done? && node in Commit(s, 1).value.nodes
      && Receive(Commit(s, 1).value, node, CREATE_SESSION_RESPONSE, 256).Abort?
  {
    hide Receive, Delete, Reachable, Inv;
    AnsweredIsReachable(node);
    ReachableIsValid(node, Answered(node));
    DeletesOnly(Answered(node), node, Answered(node).xacts[1], 1);
    RepeatedResponseAborts(Answered(node), node, 1, CREATE_SESSION_RESPONSE);
  }

  const INDICATION := BEARER_RESOURCE_FAILURE_INDICATION

  /** The responder after it refused the command. */
  function Refused(path: Path): Xact {
    TheirsAt(path, 0).(step := 2, slots := TheirsAt(path, 0).slots[1 := Slot(INDICATION, Some(RefusalPacket()))])
  }

  function RefusalPacket(): Packet {
    HeaderOn(Buffer(0, []), INDICATION, 0, FLAGGED)
  }

  /** B after it refused the command, and after it sent the refusal. */
  function BRefused(path: Path, sent: seq<Sending>): State {
    State(0, 0, 1, [], map[1 := Refused(path)], map[path.bNode := Lists([], [1])], sent, 0, map[], {0}, [])
  }

  function RefusalSent(path: Path): seq<Sending> {
    [Sending(0, path.bNode, RefusalPacket())]
  }

  lemma BRefuses(path: Path)
    ensures Steps(BState(path, 0, [], {}, []), EvAnswer(1, INDICATION, 0, Buffer(0, [])), BRefused(path, []))
    ensures Steps(BRefused(path, []), EvCommit(1), BRefused(path, RefusalSent(path)))
  {
    hide Steps;
    TheirsOf(path, 0);
    RefusedProgress(path);
    assert Refused(path).node == path.bNode;
    hide UpdateTx, CommitXact, TheirsAt, Refused, RefusalPacket;
    AnswersTo(BState(path, 0, [], {}, []), TheirsAt(path, 0), Refused(path), INDICATION, Buffer(0, []));
    CommitsTo(BRefused(path, []), Refused(path), Refused(path), RefusalPacket());
    assert [] + RefusalSent(path) == RefusalSent(path) && {} + {0} == {0};
  }

  lemma RefusedProgress(path: Path)
    ensures UpdateTx(TheirsAt(path, 0), INDICATION, 0, Buffer(0, [])) == Done(Refused(path))
    ensures CommitXact(Refused(path), 0) == Done(Transmit(Refused(path), RefusalPacket()))
  {
  }

  function RefusalWorlds(path: Path, n: nat): seq<World> {
    var given := Below(n) + {n};
    [World(Used(path.aNode, n), BFree(path, [], {}, [])),
     World(AState(path, n, 0, 0, given), BFree(path, [], {}, [])),
     World(AState(path, n, 1, 1, given), BFree(path, [], {}, [])),
     World(AState(path, n, 1, 1, given), BState(path, 0, [], {}, [])),
     World(AState(path, n, 1, 1, given), BRefused(path, [])),
     World(AState(path, n, 1, 1, given), BRefused(path, RefusalSent(path)))]
  }

  function RefusalScript(path: Path, n: nat): seq<Move> {
    [AtA(EvCreate(path.aNode, COMMAND, 0, Buffer(n, []))), AtA(EvCommit(1)),
     AtB(EvReceive(path.bNode, COMMAND, FlaggedSqn())), AtB(EvAnswer(1, INDICATION, 0, Buffer(0, []))), AtB(EvCommit(1))]
  }

  /** A packet is under way from B to A. */
  ghost predicate InTransitBack(w: World, path: Path, kind: Kind, sqn: Sqn) {
    exists i :: 0 <= i < |w.b.sent| && IsCopyBack(w.b.sent[i], w.a.now, path, kind, sqn)
  }

  predicate IsCopyBack(sending: Sending, now: Time, path: Path, kind: Kind, sqn: Sqn) {
    sending.node == path.bNode && sending.packet.kind == kind && sending.packet.sqn == sqn
    && now < sending.time + path.delay
  }

  lemma RefusalMoves(path: Path, n: nat, i: nat)
    requires path.delay > 0 && TurnOfFlagged(n) && i < 5
    ensures Moves(RefusalWorlds(path, n)[i], RefusalScript(path, n)[i], RefusalWorlds(path, n)[i + 1], path)
  {
    hide Steps, InTransit, AState, BState, BFree, BRefused, Used, Below;
    ACreates(path, n);
    BRefuses(path);
    if i == 2 {
      BTakes(path, [], {}, []);
      PacketsUnderWay(path, n, 1, 1, Below(n) + {n}, BFree(path, [], {}, [])) by { AtZero(path); }
    }
  }

  /** From the start of both peers: a command is sent and refused, and the refusal, which is under way to the sender of the
      command, is fatal to it. */
  lemma FailureIndicationHappens(path: Path, n: nat)
    requires path.delay > 0 && TurnOfFlagged(n)
    ensures var worlds := RefusalWorlds(path, n);
      && Reachable(path.aNode, worlds[0].a) && Reachable(path.bNode, worlds[0].b)
      && WorldRun(worlds, RefusalScript(path, n), path)
      && InTransitBack(worlds[5], path, INDICATION, FlaggedSqn())
      && Receive(worlds[5].a, path.aNode, INDICATION, FlaggedSqn()).Abort?
  {
    hide Steps, Moves, Reachable, Below, InTurn, Receive;
    var worlds, moves := RefusalWorlds(path, n), RefusalScript(path, n);
    UsedIsReachable(path.aNode, n);
    ReachStart(path.bNode);
    IdleIsInitial(path.bNode);
    forall i | 0 <= i < |moves|
      ensures Moves(worlds[i], moves[i], worlds[i + 1], path)
    {
      RefusalMoves(path, n, i);
    }
    assert IsCopyBack(worlds[5].b.sent[0], 0, path, INDICATION, FlaggedSqn());
    AfterCommand(path, n);
    RefusalIsFatal(path, n);
  }

  lemma AfterCommand(path: Path, n: nat)
    requires TurnOfFlagged(n)
    ensures Reachable(path.aNode, AState(path, n, 1, 1, Below(n) + {n}))
  {
    hide Steps, Reachable, Below, InTurn;
    var given := Below(n) + {n};
    UsedIsReachable(path.aNode, n);
    ACreates(path, n);
    ReachStep(path.aNode, Used(path.aNode, n), EvCreate(path.aNode, COMMAND, 0, Buffer(n, [])), AState(path, n, 0, 0, given));
    ReachStep(path.aNode, AState(path, n, 0, 0, given), EvCommit(1), AState(path, n, 1, 1, given));
  }

  lemma RefusalIsFatal(path: Path, n: nat)
    requires TurnOfFlagged(n) && Reachable(path.aNode, AState(path, n, 1, 1, Below(n) + {n}))
    ensures Receive(AState(path, n, 1, 1, Below(n) + {n}), path.aNode, INDICATION, FlaggedSqn()).Abort?
  {
    hide Steps, Reachable, Below, InTurn, Inv, Receive;
    var a := AState(path, n, 1, 1, Below(n) + {n});
    ReachableIsValid(path.aNode, a);
    ReceiveSurvivesIff(a, path.aNode, INDICATION, FlaggedSqn());
  }
}
