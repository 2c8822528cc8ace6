/** What each operation of the GTPv2-C transaction layer does to the state of one peer. */
module GtpXactModel {
  import opened Wrappers
  import opened GtpMessages

  type NodeId = nat
  type Ref = nat
  type Time = nat

  /** Durations in microseconds. */
  const T3_RESPONSE: Time := 3_000_000
  const T3_RESPONSE_RETRIES: nat := 3
  const T3_DUPLICATED: Time := T3_RESPONSE * T3_RESPONSE_RETRIES
  const T3_DUPLICATED_RETRIES: nat := 1

  const MIN_XACT_ID := 1
  const HEADER_LEN := 12

  /** A packet buffer handed in by the caller; `id` names the allocation. */
  datatype Buffer = Buffer(id: nat, body: seq<nat>)
  datatype Packet = Packet(id: nat, kind: Kind, length: nat, teid: nat, sqn: Sqn, body: seq<nat>)

  datatype Originator = Local | Remote

  /** One entry of a transaction's message history. */
  datatype Slot = Slot(kind: Kind, packet: Option<Packet>)
  const EMPTY := Slot(0, None)
  type History = h: seq<Slot> | |h| == 3 witness [EMPTY, EMPTY, EMPTY]

  /** A transaction. A timer is its deadline while it runs. */
  datatype Xact = Xact(org: Originator, xid: Xid, node: NodeId, step: nat, slots: History,
                       response: Option<Time>, responseCount: nat,
                       holding: Option<Time>, holdingCount: nat, partner: Option<Ref>)

  datatype Lists = Lists(local: seq<Ref>, remote: seq<Ref>)
  datatype Sending = Sending(time: Time, node: NodeId, packet: Packet)

  /** One peer. `created`, `births`, `sent`, `given` and `freed` record the past:
      local creations so far and the serial number of each live one, every send,
      every buffer accepted and every buffer released. */
  datatype State = State(now: Time, lastId: Xid, size: nat, free: seq<Ref>, xacts: map<Ref, Xact>,
                         nodes: map<NodeId, Lists>, sent: seq<Sending>,
                         created: nat, births: map<Ref, nat>, given: set<nat>, freed: seq<nat>)

  datatype Status = Ok | Retry
  datatype Received = Received(state: State, status: Status, xact: Option<Ref>)

  // ---- transitions of a single transaction

  function FreshXact(org: Originator, xid: Xid, node: NodeId): Xact {
    Xact(org, xid, node, 0, [EMPTY, EMPTY, EMPTY], None, T3_RESPONSE_RETRIES, None, T3_DUPLICATED_RETRIES, None)
  }

  function HeaderOn(buffer: Buffer, kind: Kind, teid: nat, xid: Xid): Packet {
    Packet(buffer.id, kind, (|buffer.body| + HEADER_LEN - 4) % 0x1_0000, teid, XidToSqn(xid), buffer.body)
  }

  /** ogs_gtp_xact_update_tx */
  function UpdateTx(x: Xact, kind: Kind, teid: nat, buffer: Buffer): Outcome<Xact> {
    var stage := StageOf(kind, x.xid);
    var expected :=
      match x.org
      case Local => (stage.Initial? && x.step == 0) || (stage.Final? && x.step == 2)
      case Remote => (stage.Intermediate? || stage.Final?) && x.step == 1;
    if expected then
      var slot := Slot(kind, Some(HeaderOn(buffer, kind, teid, x.xid)));
      Done(x.(slots := x.slots[x.step := slot], step := x.step + 1))
    else Abort
  }

  /** Accepted: the message is new. Duplicate: it was seen before; the answer given then, if any, is sent again. */
  datatype Reception = Accepted(x: Xact) | Duplicate(x: Xact, resend: Option<Packet>)

  function DuplicateOf(x: Xact, answer: Option<Packet>, now: Time): Reception {
    Duplicate(if answer.Some? then x.(holding := Some(now + T3_DUPLICATED)) else x, answer)
  }

  function Accept(x: Xact, kind: Kind): Reception
    requires x.step < 3
  {
    Accepted(x.(response := None, slots := x.slots[x.step := Slot(kind, None)], step := x.step + 1))
  }

  /** ogs_gtp_xact_update_rx */
  function UpdateRx(x: Xact, kind: Kind, now: Time): Outcome<Reception> {
    var held := x.(holding := Some(now + T3_DUPLICATED));
    match (x.org, StageOf(kind, x.xid))
    case (Local, Intermediate) =>
      if x.slots[1].kind == kind then
        if x.step == 2 || x.step == 3 then Done(DuplicateOf(x, x.slots[2].packet, now)) else Abort
      else if x.step == 1 then Done(Accept(held, kind)) else Abort
    case (Local, Final) =>
      if x.step == 1 then Done(Accept(x, kind)) else Abort
    case (Remote, Initial) =>
      if x.slots[0].kind == kind then
        if x.step == 1 || x.step == 2 then Done(DuplicateOf(x, x.slots[1].packet, now)) else Abort
      else if x.step == 0 then Done(Accept(held, kind)) else Abort
    case (Remote, Final) =>
      if x.step == 2 then Done(Accept(x, kind)) else Abort
    case (_, _) => Abort
  }

  /** What ogs_gtp_xact_commit does with a transaction: drop it, or send the last packet
      and, when an answer is due, start the response timer. */
  datatype Commitment = Discard | Transmit(x: Xact, packet: Packet)

  function CommitXact(x: Xact, now: Time): Outcome<Commitment> {
    if !(1 <= x.step <= 3) then Abort else
    var last := x.slots[x.step - 1];
    var armed := x.(response := Some(now + T3_RESPONSE));
    match (x.org, StageOf(last.kind, x.xid))
    case (Local, Initial) =>
      if x.step == 1 && last.packet.Some? then Done(Transmit(armed, last.packet.value)) else Abort
    case (Local, Final) =>
      if x.step == 2 then Done(Discard)
      else if x.step == 3 && last.packet.Some? then Done(Transmit(x, last.packet.value)) else Abort
    case (Remote, Intermediate) =>
      if x.step == 2 && last.packet.Some? then Done(Transmit(armed, last.packet.value)) else Abort
    case (Remote, Final) =>
      if x.step == 3 then Done(Discard)
      else if x.step == 2 && last.packet.Some? then Done(Transmit(x, last.packet.value)) else Abort
    case (_, _) => Abort
  }

  // ---- the peer's tables

  function ListOf(s: State, node: NodeId, org: Originator): seq<Ref>
    requires node in s.nodes
  {
    if org.Local? then s.nodes[node].local else s.nodes[node].remote
  }

  function WithList(s: State, node: NodeId, org: Originator, list: seq<Ref>): State
    requires node in s.nodes
  {
    var lists := s.nodes[node];
    s.(nodes := s.nodes[node := if org.Local? then lists.(local := list) else lists.(remote := list)])
  }

  /** Take a pool slot for `x` and put it at the end of its list. */
  function Insert(s: State, x: Xact): State
    requires s.free != [] && x.node in s.nodes
  {
    var r := s.free[0];
    WithList(s.(free := s.free[1..], xacts := s.xacts[r := x]), x.node, x.org, ListOf(s, x.node, x.org) + [r])
  }

  function Put(s: State, r: Ref, x: Xact): State {
    s.(xacts := s.xacts[r := x])
  }

  function Send(s: State, node: NodeId, packet: Packet): State {
    s.(sent := s.sent + [Sending(s.now, node, packet)])
  }

  /** The packets of the history, in slot order. */
  function HeldBy(slots: seq<Slot>): seq<nat> {
    if slots == [] then []
    else (if slots[0].packet.Some? then [slots[0].packet.value.id] else []) + HeldBy(slots[1..])
  }

  /** ogs_gtp_xact_deassociate; a transaction that is not live cannot be named. */
  function Unlink(s: State, a: Ref, b: Ref): Outcome<State>
    requires a in s.xacts
  {
    if s.xacts[a].partner.Some? && b in s.xacts && s.xacts[b].partner.Some? then
      var s1 := Put(s, a, s.xacts[a].(partner := None));
      Done(Put(s1, b, s1.xacts[b].(partner := None)))
    else Abort
  }

  /** ogs_gtp_xact_associate */
  function Link(s: State, a: Ref, b: Ref): Outcome<State>
    requires a in s.xacts && b in s.xacts
  {
    if s.xacts[a].partner.None? && s.xacts[b].partner.None? then
      var s1 := Put(s, a, s.xacts[a].(partner := Some(b)));
      Done(Put(s1, b, s1.xacts[b].(partner := Some(a))))
    else Abort
  }

  /** Take `r` off its list and give its slot back to the pool. */
  function Release(s: State, r: Ref): State
    requires r in s.xacts && s.xacts[r].node in s.nodes
  {
    var x := s.xacts[r];
    WithList(s.(freed := s.freed + HeldBy(x.slots), xacts := s.xacts - {r}, births := s.births - {r},
                free := s.free + [r]),
             x.node, x.org, Without(ListOf(s, x.node, x.org), r))
  }

  /** ogs_gtp_xact_delete */
  function Delete(s: State, r: Ref): Outcome<State>
    requires r in s.xacts && s.xacts[r].node in s.nodes
  {
    var x := s.xacts[r];
    var s1 :- if x.partner.Some? then Unlink(s, r, x.partner.value) else Done(s);
    Done(Release(s1, r))
  }

  function DeleteEach(s: State, refs: seq<Ref>): Outcome<State>
    decreases |refs|
  {
    if refs == [] then Done(s)
    else if refs[0] in s.xacts && s.xacts[refs[0]].node in s.nodes then
      var s1 :- Delete(s, refs[0]);
      DeleteEach(s1, refs[1..])
    else Abort
  }

  // ---- the operations

  /** OGS_NEXT_ID */
  function NextId(id: Xid): Xid {
    if id >= MAX_XACT_ID then MIN_XACT_ID else id + 1
  }

  /** ogs_gtp_xact_local_create */
  function LocalCreate(s: State, node: NodeId, kind: Kind, teid: nat, buffer: Buffer): Outcome<State>
    requires node in s.nodes
  {
    if s.free == [] then Abort else
    var id := NextId(s.lastId);
    var x :- UpdateTx(FreshXact(Local, id, node), kind, teid, buffer);
    var s1 := s.(lastId := id, created := s.created + 1, births := s.births[s.free[0] := s.created + 1],
                 given := s.given + {buffer.id});
    Done(Insert(s1, x))
  }

  /** ogs_gtp_xact_update_tx on a live transaction */
  function Answer(s: State, r: Ref, kind: Kind, teid: nat, buffer: Buffer): Outcome<State>
    requires r in s.xacts
  {
    var x :- UpdateTx(s.xacts[r], kind, teid, buffer);
    Done(Put(s.(given := s.given + {buffer.id}), r, x))
  }

  /** ogs_gtp_xact_commit */
  function Commit(s: State, r: Ref): Outcome<State>
    requires r in s.xacts && s.xacts[r].node in s.nodes
  {
    var c :- CommitXact(s.xacts[r], s.now);
    match c
    case Discard => Delete(s, r)
    case Transmit(x, packet) => Done(Send(Put(s, r, x), x.node, packet))
  }

  /** The list searched for a message; an unknown stage has none. */
  function SearchedList(kind: Kind, xid: Xid): Outcome<Originator> {
    match StageOf(kind, xid)
    case Initial => Done(Remote)
    case Intermediate => Done(Local)
    case Final => Done(if Flagged(xid) then Remote else Local)
    case Unknown => Abort
  }

  /** The first transaction of `list` with the identifier. */
  function FirstWithXid(list: seq<Ref>, xacts: map<Ref, Xact>, xid: Xid): (found: Option<Ref>)
    ensures found.Some? ==> found.value in list && found.value in xacts && xacts[found.value].xid == xid
    ensures found.None? ==> forall r :: r in list && r in xacts ==> xacts[r].xid != xid
  {
    if list == [] then None
    else if list[0] in xacts && xacts[list[0]].xid == xid then Some(list[0])
    else
      var rest := FirstWithXid(list[1..], xacts, xid);
      assert forall r :: r in list <==> r == list[0] || r in list[1..];
      rest
  }

  /** ogs_gtp_xact_find_by_xid */
  function FindByXid(s: State, node: NodeId, kind: Kind, xid: Xid): (found: Outcome<Option<Ref>>)
    requires node in s.nodes
    ensures found.Done? && found.value.Some? ==> found.value.value in s.xacts
  {
    var org :- SearchedList(kind, xid);
    Done(FirstWithXid(ListOf(s, node, org), s.xacts, xid))
  }

  /** ogs_gtp_xact_receive: a message that matches no transaction starts a remote one. */
  function Receive(s: State, node: NodeId, kind: Kind, sqn: Sqn): Outcome<Received>
    requires node in s.nodes
  {
    var found :- FindByXid(s, node, kind, SqnToXid(sqn));
    if found.None? && s.free == [] then Abort else
    var x := if found.Some? then s.xacts[found.value] else FreshXact(Remote, SqnToXid(sqn), node);
    var reception :- UpdateRx(x, kind, s.now);
    var r := if found.Some? then found.value else s.free[0];
    var s1 := if found.Some? then Put(s, r, reception.x) else Insert(s, reception.x);
    match reception
    case Accepted(_) => Done(Received(s1, Ok, Some(r)))
    case Duplicate(_, resend) =>
      Done(Received(if resend.Some? then Send(s1, node, resend.value) else s1, Retry, None))
  }

  /** The decrement of an 8-bit counter. */
  function Decremented(count: nat): nat {
    if count == 0 then 255 else count - 1
  }

  /** response_timeout */
  function ResponseTimeout(s: State, r: Ref): Outcome<State>
    requires r in s.xacts && s.xacts[r].node in s.nodes
  {
    var x := s.xacts[r];
    var count := Decremented(x.responseCount);
    if !(1 <= x.step <= 3) then Abort
    else if count > 0 then
      var packet := x.slots[x.step - 1].packet;
      if packet.None? then Abort
      else Done(Send(Put(s, r, x.(responseCount := count, response := Some(s.now + T3_RESPONSE))), x.node, packet.value))
    else Delete(s, r)
  }

  /** holding_timeout */
  function HoldingTimeout(s: State, r: Ref): Outcome<State>
    requires r in s.xacts && s.xacts[r].node in s.nodes
  {
    var x := s.xacts[r];
    var count := Decremented(x.holdingCount);
    if !(1 <= x.step <= 3) then Abort
    else if count > 0 then
      Done(Put(s, r, x.(holdingCount := count, holding := Some(s.now + T3_DUPLICATED))))
    else Delete(s, r)
  }

  /** ogs_gtp_xact_delete_all */
  function DeleteAll(s: State, node: NodeId): Outcome<State>
    requires node in s.nodes
  {
    var s1 :- DeleteEach(s, s.nodes[node].local);
    if node in s1.nodes then DeleteEach(s1, s1.nodes[node].remote) else Abort
  }

  // ---- runs of one peer

  datatype Event =
    | EvCreate(node: NodeId, kind: Kind, teid: nat, buffer: Buffer)
    | EvAnswer(ref: Ref, kind: Kind, teid: nat, buffer: Buffer)
    | EvCommit(ref: Ref)
    | EvReceive(node: NodeId, kind: Kind, sqn: Sqn)
    | EvResponseTimeout(ref: Ref)
    | EvHoldingTimeout(ref: Ref)
    | EvLink(ref: Ref, other: Ref)
    | EvUnlink(ref: Ref, other: Ref)
    | EvDeleteAll(node: NodeId)
    | EvAdvance(delay: Time)

  predicate LiveRef(s: State, r: Ref) {
    r in s.xacts && s.xacts[r].node in s.nodes
  }

  predicate Due(timer: Option<Time>, now: Time) {
    timer.Some? && timer.value <= now
  }

  /** What the callers owe: live pointers, a packet buffer not handed in before, an associated
      pair to deassociate; and a timeout comes from a timer that has run out. */
  predicate Enabled(s: State, e: Event) {
    match e
    case EvCreate(node, _, _, buffer) => node in s.nodes && buffer.id !in s.given
    case EvAnswer(r, _, _, buffer) => LiveRef(s, r) && buffer.id !in s.given
    case EvCommit(r) => LiveRef(s, r)
    case EvReceive(node, _, _) => node in s.nodes
    case EvResponseTimeout(r) => LiveRef(s, r) && Due(s.xacts[r].response, s.now)
    case EvHoldingTimeout(r) => LiveRef(s, r) && Due(s.xacts[r].holding, s.now)
    case EvLink(a, b) => LiveRef(s, a) && LiveRef(s, b)
    case EvUnlink(a, b) => LiveRef(s, a) && LiveRef(s, b) && s.xacts[a].partner == Some(b)
    case EvDeleteAll(node) => node in s.nodes
    case EvAdvance(_) => true
  }

  function Step(s: State, e: Event): Outcome<State>
    requires Enabled(s, e)
  {
    match e
    case EvCreate(node, kind, teid, buffer) => LocalCreate(s, node, kind, teid, buffer)
    case EvAnswer(r, kind, teid, buffer) => Answer(s, r, kind, teid, buffer)
    case EvCommit(r) => Commit(s, r)
    case EvReceive(node, kind, sqn) =>
      var received :- Receive(s, node, kind, sqn);
      Done(received.state)
    case EvResponseTimeout(r) => ResponseTimeout(s, r)
    case EvHoldingTimeout(r) => HoldingTimeout(s, r)
    case EvLink(a, b) => Link(s, a, b)
    case EvUnlink(a, b) => Unlink(s, a, b)
    case EvDeleteAll(node) => DeleteAll(s, node)
    case EvAdvance(delay) => Done(s.(now := s.now + delay))
  }

  /** A run that reaches no failing assertion. */
  predicate Steps(s: State, e: Event, t: State) {
    Enabled(s, e) && Step(s, e) == Done(t)
  }

  /** The pool filled, no transaction yet. */
  function InitialState(size: nat, nodes: set<NodeId>): State {
    State(0, 0, size, seq(size, i requires 0 <= i < size => i + 1), map[],
          map n | n in nodes :: Lists([], []), [], 0, map[], {}, [])
  }
}
