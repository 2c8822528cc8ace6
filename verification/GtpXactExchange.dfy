/** Two peers and the network between them: a request is delivered at most once, until its responder has
    received the last message of the exchange.

    The network is what peer A has sent. Any copy of any packet may reach B any number of times,
    in any order or not at all, as long as it is younger than the greatest delay. Both peers run
    any number of other transactions with anybody else at the same time. */
module GtpXactExchange {
  import opened Wrappers
  import opened GtpMessages
  import opened GtpXactModel
  import opened GtpXactInvariant
  import opened GtpXactSteps
  import opened GtpXactRuns

  /** B as A knows it, A as B knows it, a bound on the delay of a copy, and how late A's timers may fire. */
  datatype Path = Path(aNode: NodeId, bNode: NodeId, delay: Time, slack: Time)

  datatype World = World(a: State, b: State)
  datatype Move = AtA(event: Event) | AtB(event: Event) | Pass(time: Time)

  ghost predicate InTransit(w: World, path: Path, kind: Kind, sqn: Sqn) {
    exists i :: 0 <= i < |w.a.sent| && IsCopyOf(w.a.sent[i], w.b.now, path, kind, sqn)
  }

  predicate IsCopyOf(sending: Sending, now: Time, path: Path, kind: Kind, sqn: Sqn) {
    sending.node == path.aNode && sending.packet.kind == kind && sending.packet.sqn == sqn
    && now < sending.time + path.delay
  }

  ghost predicate Moves(w: World, m: Move, v: World, path: Path) {
    match m
    case AtA(e) => !e.EvAdvance? && Steps(w.a, e, v.a) && v.b == w.b
    case AtB(e) =>
      && !e.EvAdvance? && Steps(w.b, e, v.b) && v.a == w.a
      && (e.EvReceive? && e.node == path.bNode ==> InTransit(w, path, e.kind, e.sqn))
    case Pass(d) =>
      Steps(w.a, EvAdvance(d), v.a) && Steps(w.b, EvAdvance(d), v.b) && Prompt(w.a, EvAdvance(d), path.slack)
  }

  ghost predicate WorldRun(worlds: seq<World>, moves: seq<Move>, path: Path) {
    && |worlds| == |moves| + 1
    && forall i :: 0 <= i < |moves| ==> Moves(worlds[i], moves[i], worlds[i + 1], path)
  }

  /** The request: its identifier, its type, and when it was first sent. */
  datatype Request = Request(xid: Xid, kind: Kind, start: Time)

  /** What the applications refrain from: A reuses the identifier or commits the request a second
      time, B removes the node. */
  ghost predicate Proper(w: World, m: Move, path: Path, req: Request) {
    match m
    case AtA(EvCreate(node, _, _, _)) => node != path.aNode || NextId(w.a.lastId) != req.xid
    case AtA(EvCommit(r)) => !(IsRequester(w.a, r, path, req) && w.a.xacts[r].step == 1)
    case AtB(EvDeleteAll(node)) => node != path.bNode
    case _ => true
  }

  /** A's transaction for the request. */
  predicate IsRequester(s: State, r: Ref, path: Path, req: Request) {
    BelongsOn(s, path.aNode, Local, r) && s.xacts[r].xid == req.xid
  }

  /** B's transaction for the request. */
  predicate IsResponder(s: State, q: Ref, path: Path, req: Request) {
    BelongsOn(s, path.bNode, Remote, q) && s.xacts[q].xid == req.xid
  }

  predicate IsCopy(m: Move, path: Path, req: Request) {
    && m.AtB? && m.event.EvReceive? && m.event.node == path.bNode
    && SqnToXid(m.event.sqn) == req.xid && StageOf(m.event.kind, req.xid).Initial?
  }

  /** The last message of a three-message exchange, from the requester. */
  predicate IsFinal(m: Move, path: Path, req: Request) {
    && m.AtB? && m.event.EvReceive? && m.event.node == path.bNode
    && SqnToXid(m.event.sqn) == req.xid && StageOf(m.event.kind, req.xid).Final? && Flagged(req.xid)
  }

  predicate IsRequestPacket(sending: Sending, path: Path, req: Request) {
    && sending.node == path.aNode && SqnToXid(sending.packet.sqn) == req.xid
    && StageOf(sending.packet.kind, req.xid).Initial?
  }

  // ---- the requester

  function LastSend(path: Path, req: Request): Time {
    req.start + (T3_RESPONSE_RETRIES - 1) * (T3_RESPONSE + path.slack)
  }

  /** The deadline after `expiries` expiries, each at most `slack` late. */
  function DeadlineBound(path: Path, req: Request, expiries: nat): Time {
    req.start + (expiries + 1) * T3_RESPONSE + expiries * path.slack
  }

  predicate RequesterOnTime(x: Xact, now: Time, path: Path, req: Request) {
    x.step == 1 ==>
      && x.slots[0].kind == req.kind
      && x.response.Some? && 1 <= x.responseCount <= T3_RESPONSE_RETRIES
      && now <= x.response.value + path.slack
      && x.response.value <= DeadlineBound(path, req, T3_RESPONSE_RETRIES - x.responseCount)
  }

  /** Packets under the identifier are either of an earlier request, and have arrived or are lost by the
      start of this one, or they are copies of this one, sent within two response times. */
  ghost predicate SendsOnTime(s: State, path: Path, req: Request) {
    forall i :: 0 <= i < |s.sent| && IsRequestPacket(s.sent[i], path, req) ==>
      || s.sent[i].time + path.delay <= req.start
      || (s.sent[i].packet.kind == req.kind && req.start <= s.sent[i].time <= LastSend(path, req))
  }

  ghost predicate ASide(s: State, path: Path, req: Request) {
    && Inv(s) && req.start <= s.now
    && (forall r :: IsRequester(s, r, path, req) ==> RequesterOnTime(s.xacts[r], s.now, path, req))
    && SendsOnTime(s, path, req)
  }

  lemma ExpiryOnTime(x: Xact, now: Time, path: Path, req: Request)
    requires RequesterOnTime(x, now, path, req) && x.step == 1 && x.responseCount > 1
    ensures RequesterOnTime(Rearmed(x, now), now, path, req) && now <= LastSend(path, req)
  {
    var k := T3_RESPONSE_RETRIES - x.responseCount;
    assert k == 0 || k == 1;
  }

  lemma RequesterStep(s: State, e: Event, t: State, r: Ref, path: Path, req: Request)
    requires ASide(s, path, req) && Steps(s, e, t) && !e.EvAdvance?
    requires e.EvCreate? ==> e.node != path.aNode || NextId(s.lastId) != req.xid
    requires e.EvCommit? ==> !(IsRequester(s, e.ref, path, req) && s.xacts[e.ref].step == 1)
    requires IsRequester(t, r, path, req)
    ensures RequesterOnTime(t.xacts[r], s.now, path, req)
  {
    hide PoolOk, ListsOk, Matched, RemoteUnique, PacketsOk, IdsOk, SentOk, XactOk, SendsOnTime, DeadlineBound;
    if r !in s.xacts {
      NewcomersFresh(s, e, t, r);
    } else {
      StepContinues(s, e, t, r);
      assert IsRequester(s, r, path, req);
      if Target(s, e) != Some(r) {
        OthersKept(s, e, t, r);
      } else if e.EvResponseTimeout? {
        RequesterExpiry(s, t, r, path, req);
      } else {
        NothingElseKeepsWaiting(s, e, t, r);
      }
    }
  }

  lemma RequesterExpiry(s: State, t: State, r: Ref, path: Path, req: Request)
    requires Inv(s) && Steps(s, EvResponseTimeout(r), t) && r in t.xacts && s.xacts[r].org.Local?
    requires RequesterOnTime(s.xacts[r], s.now, path, req)
    ensures RequesterOnTime(t.xacts[r], s.now, path, req)
  {
    hide PoolOk, ListsOk, Matched, RemoteUnique, PacketsOk, IdsOk, SentOk, DeadlineBound, LastSend;
    assert XactOk(s.xacts[r]);
    ResponseTimeoutShape(s, r);
    if s.xacts[r].responseCount == 1 {
      DeleteKeeps(s, r);
      DeleteShape(s, r);
    } else if s.xacts[r].step == 1 {
      ExpiryOnTime(s.xacts[r], s.now, path, req);
    }
  }

  /** Nothing but an expiry leaves a requester waiting for its first answer: whatever else acts on it moves it on. */
  lemma NothingElseKeepsWaiting(s: State, e: Event, t: State, r: Ref)
    requires Inv(s) && Steps(s, e, t) && Target(s, e) == Some(r) && !e.EvResponseTimeout?
    requires r in s.xacts && r in t.xacts && s.xacts[r].org.Local?
    requires e.EvCommit? ==> s.xacts[r].step != 1
    ensures t.xacts[r].step != 1
  {
    hide PoolOk, ListsOk, Matched, RemoteUnique, PacketsOk, IdsOk, SentOk;
    assert XactOk(s.xacts[r]);
    match e
    case EvAnswer(q, kind, teid, buffer) => AnswerShape(s, r, kind, teid, buffer);
    case EvCommit(q) => CommitSendsStored(s, r);
    case EvReceive(node, kind, sqn) => ReceiveContinues(s, node, kind, sqn);
    case EvHoldingTimeout(q) => HoldingTimeoutKeeps(s, r); DeleteShape(s, r);
  }

  lemma StepTime(s: State, e: Event, t: State)
    requires Inv(s) && Steps(s, e, t) && !e.EvAdvance?
    ensures t.now == s.now
  {
    hide PoolOk, ListsOk, Matched, RemoteUnique, PacketsOk, IdsOk, SentOk, XactOk;
    match e
    case EvCreate(node, kind, teid, buffer) => var x := LocalCreateShape(s, node, kind, teid, buffer);
    case EvCommit(r) => CommitTime(s, r);
    case EvResponseTimeout(r) => QuietTime(s, e, t);
    case EvHoldingTimeout(r) => QuietTime(s, e, t);
    case EvDeleteAll(node) => DeleteAllSendsNothing(s, node);
    case _ =>
  }

  /** A packet of the request that A sends is a timer-driven resend, in time. */
  lemma SendOnTime(s: State, e: Event, r: Ref, i: nat, sending: Sending, path: Path, req: Request)
    requires ASide(s, path, req) && Enabled(s, e) && ResendsSlot(s, e, r, i, sending)
    requires e.EvResponseTimeout? ==> s.xacts[r].responseCount > 1
    requires e.EvCommit? ==> !(IsRequester(s, r, path, req) && s.xacts[r].step == 1)
    requires e.EvResponseTimeout? || e.EvCommit? || e.EvReceive?
    requires IsRequestPacket(sending, path, req)
    ensures sending.packet.kind == req.kind && sending.time <= LastSend(path, req)
  {
    hide PoolOk, ListsOk, Matched, RemoteUnique, PacketsOk, IdsOk, SentOk, SendsOnTime, DeadlineBound, LastSend;
    var x := s.xacts[r];
    assert XactOk(x);
    assert SlotOk(x, i);
    assert IsRequester(s, r, path, req);
    ExpiryOnTime(x, s.now, path, req);
  }

  lemma ASideStep(s: State, e: Event, t: State, path: Path, req: Request)
    requires ASide(s, path, req) && Steps(s, e, t) && !e.EvAdvance?
    requires e.EvCreate? ==> e.node != path.aNode || NextId(s.lastId) != req.xid
    requires e.EvCommit? ==> !(IsRequester(s, e.ref, path, req) && s.xacts[e.ref].step == 1)
    ensures ASide(t, path, req) && t.now == s.now
  {
    hide Inv, RequesterOnTime, LastSend;
    StepKeeps(s, e, t);
    StepTime(s, e, t);
    forall r | IsRequester(t, r, path, req)
      ensures RequesterOnTime(t.xacts[r], t.now, path, req)
    {
      RequesterStep(s, e, t, r, path, req);
    }
    SendsAreStored(s, e, t);
    if t.sent != s.sent {
      var r, i, sending :| ResendsSlot(s, e, r, i, sending) && t.sent == s.sent + [sending];
      if IsRequestPacket(sending, path, req) {
        OnlyThreeSend(s, e, t, r);
        SendOnTime(s, e, r, i, sending, path, req);
      }
    }
  }

  lemma OnlyThreeSend(s: State, e: Event, t: State, r: Ref)
    requires Inv(s) && Steps(s, e, t) && t.sent != s.sent && Target(s, e) == Some(r)
    ensures e.EvResponseTimeout? || e.EvCommit? || e.EvReceive?
    ensures e.EvResponseTimeout? ==> s.xacts[r].responseCount > 1
    ensures e.EvCommit? ==> e.ref == r
  {
    hide PoolOk, ListsOk, Matched, RemoteUnique, PacketsOk, IdsOk, SentOk, XactOk;
    match e
    case EvResponseTimeout(q) =>
      assert XactOk(s.xacts[r]);
      ResponseTimeoutShape(s, r);
      DeleteKeeps(s, r);
      DeleteShape(s, r);
      assert TimersOk(s.xacts[r]) by { CountsPositive(s.xacts[r]); }
    case EvHoldingTimeout(q) => HoldingTimeoutKeeps(s, r); DeleteShape(s, r);
    case _ =>
  }

  lemma CountsPositive(x: Xact)
    requires XactOk(x)
    ensures TimersOk(x)
  {
  }

  // ---- the responder

  function HoldsUntil(since: Time): Time {
    since + T3_DUPLICATED
  }

  /** When the response timer will have expired for the last time. */
  function GivesUpAt(x: Xact): int
    requires x.response.Some?
  {
    x.response.value + (x.responseCount - 1) * T3_RESPONSE
  }

  /** The request was taken in at `since`, its transaction waits for no final message or has not got it yet,
      and no timer removes it before its time is over. */
  predicate Holding(x: Xact, req: Request, since: Time, now: Time) {
    && 1 <= x.step <= 2 && x.slots[0].kind == req.kind
    && x.holding.Some? && HoldsUntil(since) <= x.holding.value
    && if x.response.None? then x.responseCount == T3_RESPONSE_RETRIES
       else x.response.value <= now + T3_RESPONSE && HoldsUntil(since) <= GivesUpAt(x)
  }

  ghost predicate NotYet(s: State, path: Path, req: Request) {
    forall q :: !IsResponder(s, q, path, req)
  }

  ghost predicate Kept(s: State, path: Path, req: Request, since: Time) {
    exists q :: IsResponder(s, q, path, req) && Holding(s.xacts[q], req, since, s.now)
  }

  /** The responder, if it is still there, has received the final message. */
  ghost predicate AllClosed(s: State, path: Path, req: Request) {
    forall q :: IsResponder(s, q, path, req) ==> s.xacts[q].step == 3
  }

  /** No copy yet; taken in at some time; the final message has come; and another copy after that. */
  datatype Phase = Waiting | Taken(since: Time) | Closed | Reopened

  function NextPhase(phase: Phase, w: World, m: Move, path: Path, req: Request): Phase {
    if IsCopy(m, path, req) then
      match phase
      case Waiting => Taken(w.b.now)
      case Taken(_) => phase
      case _ => Reopened
    else if IsFinal(m, path, req) && !phase.Reopened? then Closed
    else phase
  }

  ghost predicate BSide(s: State, path: Path, req: Request, phase: Phase) {
    && Inv(s)
    && match phase
       case Waiting => NotYet(s, path, req)
       case Taken(since) => req.start <= since <= s.now && (Kept(s, path, req, since) || HoldsUntil(since) <= s.now)
       case Closed => AllClosed(s, path, req)
       case Reopened => true
  }

  /** The only copies under way are of this request, and none is under way that long. */
  lemma CopiesAreOfRequest(w: World, path: Path, req: Request, kind: Kind, sqn: Sqn)
    requires SendsOnTime(w.a, path, req) && req.start <= w.a.now == w.b.now && path.delay + 2 * path.slack <= T3_RESPONSE
    requires InTransit(w, path, kind, sqn) && SqnToXid(sqn) == req.xid && StageOf(kind, req.xid).Initial?
    ensures kind == req.kind && w.b.now < HoldsUntil(req.start)
  {
    var i :| 0 <= i < |w.a.sent| && IsCopyOf(w.a.sent[i], w.b.now, path, kind, sqn);
    assert IsRequestPacket(w.a.sent[i], path, req);
  }

  /** The responder finds its transaction for every copy. */
  lemma CopyFinds(s: State, path: Path, req: Request, q: Ref, kind: Kind)
    requires Inv(s) && IsResponder(s, q, path, req) && path.bNode in s.nodes && StageOf(kind, req.xid).Initial?
    ensures Found(s, path.bNode, kind, req.xid) == Some(q)
  {
    hide PoolOk, Matched, PacketsOk, IdsOk, SentOk, XactOk;
    OnListIsLive(s, path.bNode, Remote);
    FoundIs(s, path.bNode, kind, req.xid);
    var p := Found(s, path.bNode, kind, req.xid).value;
    assert IsRemote(s, p) && IsRemote(s, q);
  }

  /** A copy of a request whose responder has not got the final message is a repeat: it reaches no failing assertion. */
  lemma HeldCopyIsRetry(s: State, path: Path, req: Request, q: Ref, kind: Kind, sqn: Sqn)
    requires Inv(s) && IsResponder(s, q, path, req) && s.xacts[q].step <= 2 && path.bNode in s.nodes
    requires s.xacts[q].slots[0].kind == kind && SqnToXid(sqn) == req.xid && StageOf(kind, req.xid).Initial?
    ensures Receive(s, path.bNode, kind, sqn).Done? && Receive(s, path.bNode, kind, sqn).value.status.Retry?
  {
    hide PoolOk, Matched, PacketsOk, IdsOk, SentOk, ListsOk, RemoteUnique;
    CopyFinds(s, path, req, q, kind);
    assert XactOk(s.xacts[q]);
    ReceiveSurvivesIff(s, path.bNode, kind, sqn);
  }

  /** A copy that finds the responder after the final message is fatal. */
  lemma ClosedCopyAborts(s: State, path: Path, req: Request, q: Ref, kind: Kind, sqn: Sqn)
    requires Inv(s) && IsResponder(s, q, path, req) && s.xacts[q].step == 3 && path.bNode in s.nodes
    requires SqnToXid(sqn) == req.xid && StageOf(kind, req.xid).Initial?
    ensures Receive(s, path.bNode, kind, sqn).Abort?
  {
    hide PoolOk, Matched, PacketsOk, IdsOk, SentOk, ListsOk, RemoteUnique;
    CopyFinds(s, path, req, q, kind);
    ReceiveSurvivesIff(s, path.bNode, kind, sqn);
  }

  /** A step of B that is neither a copy of another kind nor the final message leaves the transaction held, until
      its time is over. */
  lemma HeldStep(s: State, e: Event, t: State, q: Ref, path: Path, req: Request, since: Time)
    requires Inv(s) && Steps(s, e, t) && !e.EvAdvance? && t.now == s.now && since <= s.now < HoldsUntil(since)
    requires IsResponder(s, q, path, req) && Holding(s.xacts[q], req, since, s.now)
    requires !e.EvDeleteAll? || e.node != path.bNode
    requires IsCopy(AtB(e), path, req) ==> e.kind == req.kind
    requires !IsFinal(AtB(e), path, req)
    ensures IsResponder(t, q, path, req) && Holding(t.xacts[q], req, since, t.now)
  {
    hide PoolOk, ListsOk, Matched, RemoteUnique, PacketsOk, IdsOk, SentOk, XactOk;
    if Target(s, e) != Some(q) {
      OthersKept(s, e, t, q);
    } else if e.EvResponseTimeout? {
      HeldExpiry(s, t, q, path, req, since);
    } else {
      HeldTouched(s, e, t, q, path, req, since);
    }
  }

  /** The response timer of the responder may expire, but not for the last time. */
  lemma HeldExpiry(s: State, t: State, q: Ref, path: Path, req: Request, since: Time)
    requires Inv(s) && Steps(s, EvResponseTimeout(q), t) && since <= s.now < HoldsUntil(since)
    requires IsResponder(s, q, path, req) && Holding(s.xacts[q], req, since, s.now)
    ensures IsResponder(t, q, path, req) && Holding(t.xacts[q], req, since, t.now)
  {
    hide PoolOk, Matched, RemoteUnique, PacketsOk, IdsOk, SentOk, ListsOk;
    assert XactOk(s.xacts[q]);
    assert s.xacts[q].responseCount > 1;
    ResponseTimeoutShape(s, q);
  }

  lemma HeldTouched(s: State, e: Event, t: State, q: Ref, path: Path, req: Request, since: Time)
    requires Inv(s) && Steps(s, e, t) && Target(s, e) == Some(q) && !e.EvResponseTimeout? && t.now == s.now
    requires IsResponder(s, q, path, req) && Holding(s.xacts[q], req, since, s.now) && since <= s.now < HoldsUntil(since)
    requires IsCopy(AtB(e), path, req) ==> e.kind == req.kind
    requires !IsFinal(AtB(e), path, req)
    ensures IsResponder(t, q, path, req) && Holding(t.xacts[q], req, since, t.now)
  {
    hide PoolOk, Matched, RemoteUnique, PacketsOk, IdsOk, SentOk, ListsOk;
    assert XactOk(s.xacts[q]);
    match e
    case EvAnswer(_, kind, teid, buffer) => AnswerShape(s, q, kind, teid, buffer);
    case EvCommit(_) => CommitSendsStored(s, q); CommitAbortsIff(s, q);
    case EvReceive(node, kind, sqn) =>
      FoundIs(s, node, kind, SqnToXid(sqn));
      HeldCopyIsRetry(s, path, req, q, kind, sqn);
      RetryChangesNothing(s, node, kind, sqn);
    case EvHoldingTimeout(_) =>
  }

  lemma NotYetFindsNone(s: State, path: Path, req: Request, kind: Kind)
    requires Inv(s) && NotYet(s, path, req) && path.bNode in s.nodes && StageOf(kind, req.xid).Initial?
    ensures Found(s, path.bNode, kind, req.xid).None?
  {
    hide PoolOk, Matched, RemoteUnique, PacketsOk, IdsOk, SentOk, XactOk;
    var found := Found(s, path.bNode, kind, req.xid);
    assert found.Some? ==> !IsResponder(s, found.value, path, req);
    if found.Some? {
      FoundIs(s, path.bNode, kind, req.xid);
    }
  }

  /** The first copy: B has no transaction for it yet, and makes one. */
  lemma FirstCopy(s: State, t: State, path: Path, req: Request, kind: Kind, sqn: Sqn)
    requires Inv(s) && NotYet(s, path, req) && kind == req.kind && t.now == s.now
    requires SqnToXid(sqn) == req.xid && StageOf(kind, req.xid).Initial?
    requires Steps(s, EvReceive(path.bNode, kind, sqn), t)
    ensures Receive(s, path.bNode, kind, sqn).value.status.Ok? && Kept(t, path, req, s.now)
  {
    hide PoolOk, Matched, RemoteUnique, PacketsOk, IdsOk, SentOk, XactOk;
    NotYetFindsNone(s, path, req, kind);
    ReceiveCreatesInitial(s, path.bNode, kind, sqn);
    var q := s.free[0];
    assert IsResponder(t, q, path, req) && Holding(t.xacts[q], req, s.now, t.now);
  }

  /** No other step makes B a transaction for the request. */
  lemma NotYetStep(s: State, e: Event, t: State, path: Path, req: Request)
    requires Inv(s) && Steps(s, e, t) && NotYet(s, path, req) && !IsCopy(AtB(e), path, req)
    ensures NotYet(t, path, req)
  {
    hide PoolOk, ListsOk, Matched, RemoteUnique, PacketsOk, IdsOk, SentOk, XactOk;
    forall q
      ensures !IsResponder(t, q, path, req)
    {
      assert !IsResponder(s, q, path, req);
      if q in t.xacts {
        if q in s.xacts {
          StepContinues(s, e, t, q);
        } else {
          NewcomersFresh(s, e, t, q);
          if t.xacts[q].org.Remote? { NewRemoteIsInitial(s, e, t, q); }
        }
      }
    }
  }

  lemma NewRemoteIsInitial(s: State, e: Event, t: State, q: Ref)
    requires Inv(s) && Steps(s, e, t) && q !in s.xacts && q in t.xacts && t.xacts[q].org.Remote?
    ensures e.EvReceive? && StageOf(e.kind, SqnToXid(e.sqn)).Initial?
  {
    hide PoolOk, ListsOk, Matched, RemoteUnique, PacketsOk, IdsOk, SentOk, XactOk;
    NewcomersFresh(s, e, t, q);
    ReceiveCreatesInitial(s, e.node, e.kind, e.sqn);
  }

  /** A final message that reaches no failing assertion finds the responder at step 2, and takes it to step 3. */
  lemma FinalCloses(s: State, t: State, path: Path, req: Request, kind: Kind, sqn: Sqn)
    requires Inv(s) && Inv(t) && Steps(s, EvReceive(path.bNode, kind, sqn), t)
    requires IsFinal(AtB(EvReceive(path.bNode, kind, sqn)), path, req)
    ensures !NotYet(s, path, req) && AllClosed(t, path, req)
  {
    hide PoolOk, Matched, PacketsOk, IdsOk, SentOk, XactOk, RemoteUnique;
    ReceiveSurvivesIff(s, path.bNode, kind, sqn);
    var q := Found(s, path.bNode, kind, req.xid).value;
    FoundIs(s, path.bNode, kind, req.xid);
    assert IsResponder(s, q, path, req);
    assert t.xacts[q].step == 3 && IsResponder(t, q, path, req);
    OneResponder(t, path, req, q);
  }

  lemma OneResponder(s: State, path: Path, req: Request, q: Ref)
    requires Inv(s) && IsResponder(s, q, path, req)
    ensures forall p :: IsResponder(s, p, path, req) ==> p == q
  {
    hide PoolOk, ListsOk, Matched, PacketsOk, IdsOk, SentOk, SlotsOk;
    assert IsRemote(s, q);
    assert forall p :: IsResponder(s, p, path, req) ==> IsRemote(s, p);
  }

  /** After the final message only a copy gives B a responder at an earlier step. */
  lemma ClosedStep(s: State, e: Event, t: State, path: Path, req: Request)
    requires Inv(s) && Inv(t) && Steps(s, e, t) && AllClosed(s, path, req) && !IsCopy(AtB(e), path, req)
    ensures AllClosed(t, path, req)
  {
    hide PoolOk, ListsOk, Matched, RemoteUnique, PacketsOk, IdsOk, SentOk;
    forall q | IsResponder(t, q, path, req)
      ensures t.xacts[q].step == 3
    {
      assert XactOk(t.xacts[q]);
      if q in s.xacts {
        StepContinues(s, e, t, q);
        assert IsResponder(s, q, path, req);
      } else {
        NewcomersFresh(s, e, t, q);
        NewRemoteIsInitial(s, e, t, q);
      }
    }
  }

  lemma KeptStep(s: State, e: Event, t: State, path: Path, req: Request, since: Time)
    requires Inv(s) && Steps(s, e, t) && !e.EvAdvance? && t.now == s.now
    requires Kept(s, path, req, since) && since <= s.now < HoldsUntil(since)
    requires !e.EvDeleteAll? || e.node != path.bNode
    requires IsCopy(AtB(e), path, req) ==> e.kind == req.kind
    requires !IsFinal(AtB(e), path, req)
    ensures Kept(t, path, req, since)
  {
    hide Inv, Steps;
    var q :| IsResponder(s, q, path, req) && Holding(s.xacts[q], req, since, s.now);
    HeldStep(s, e, t, q, path, req, since);
    assert IsResponder(t, q, path, req) && Holding(t.xacts[q], req, since, t.now);
  }

  lemma BSideStep(w: World, e: Event, v: World, path: Path, req: Request, phase: Phase)
    requires ASide(w.a, path, req) && BSide(w.b, path, req, phase) && w.a.now == w.b.now
    requires Moves(w, AtB(e), v, path) && Proper(w, AtB(e), path, req)
    requires path.delay + 2 * path.slack <= T3_RESPONSE
    ensures BSide(v.b, path, req, NextPhase(phase, w, AtB(e), path, req)) && v.b.now == w.b.now
  {
    hide Inv, Steps, SendsOnTime, InTransit, NotYet, Kept, AllClosed, Holding, IsResponder, RequesterOnTime;
    StepKeeps(w.b, e, v.b);
    StepTime(w.b, e, v.b);
    if IsFinal(AtB(e), path, req) {
      FinalCloses(w.b, v.b, path, req, e.kind, e.sqn);
    } else {
      if IsCopy(AtB(e), path, req) { CopiesAreOfRequest(w, path, req, e.kind, e.sqn); }
      match phase
      case Waiting =>
        if IsCopy(AtB(e), path, req) {
          FirstCopy(w.b, v.b, path, req, e.kind, e.sqn);
        } else {
          NotYetStep(w.b, e, v.b, path, req);
        }
      case Taken(since) =>
        if w.b.now < HoldsUntil(since) { KeptStep(w.b, e, v.b, path, req, since); }
      case Closed =>
        if !IsCopy(AtB(e), path, req) { ClosedStep(w.b, e, v.b, path, req); }
      case Reopened =>
    }
  }

  // ---- the exchange

  lemma PassKeeps(w: World, d: Time, v: World, path: Path, req: Request, phase: Phase)
    requires ASide(w.a, path, req) && BSide(w.b, path, req, phase) && w.a.now == w.b.now
    requires Moves(w, Pass(d), v, path)
    ensures ASide(v.a, path, req) && BSide(v.b, path, req, phase) && v.a.now == v.b.now >= w.a.now
  {
    hide PoolOk, ListsOk, Matched, RemoteUnique, PacketsOk, IdsOk, SentOk, XactOk, HoldsUntil, LastSend, DeadlineBound;
    StepKeeps(w.a, EvAdvance(d), v.a);
    StepKeeps(w.b, EvAdvance(d), v.b);
    assert forall r :: IsRequester(v.a, r, path, req) <==> IsRequester(w.a, r, path, req);
    assert forall q :: IsResponder(v.b, q, path, req) <==> IsResponder(w.b, q, path, req);
    if phase.Taken? && Kept(w.b, path, req, phase.since) {
      var q :| IsResponder(w.b, q, path, req) && Holding(w.b.xacts[q], req, phase.since, w.b.now);
      assert IsResponder(v.b, q, path, req) && Holding(v.b.xacts[q], req, phase.since, v.b.now);
    }
  }

  /** A peer's world in which the request is about to be sent for the first time. */
  ghost predicate Ready(w: World, path: Path, req: Request) {
    && Inv(w.a) && Inv(w.b) && w.a.now == w.b.now == req.start
    && path.aNode in w.a.nodes && path.bNode in w.b.nodes
    && req.xid == NextId(w.a.lastId)
    && (forall r :: !IsRequester(w.a, r, path, req))
    && NotYet(w.b, path, req)
    && (forall i :: 0 <= i < |w.a.sent| && IsRequestPacket(w.a.sent[i], path, req) ==>
          w.a.sent[i].time + path.delay <= w.a.now)
  }

  /** A creates the request and commits it; then anything may happen. */
  ghost predicate Exchange(worlds: seq<World>, moves: seq<Move>, path: Path, req: Request) {
    && WorldRun(worlds, moves, path) && 2 <= |moves|
    && Ready(worlds[0], path, req)
    && moves[0].AtA? && moves[0].event.EvCreate? && moves[0].event.node == path.aNode && moves[0].event.kind == req.kind
    && worlds[0].a.free != [] && moves[1] == AtA(EvCommit(worlds[0].a.free[0]))
    && forall i :: 2 <= i < |moves| ==> Proper(worlds[i], moves[i], path, req)
  }

  lemma Begin(worlds: seq<World>, moves: seq<Move>, path: Path, req: Request)
    requires Exchange(worlds, moves, path, req)
    ensures ASide(worlds[2].a, path, req) && BSide(worlds[2].b, path, req, Waiting)
    ensures worlds[2].a.now == worlds[2].b.now
  {
    hide PoolOk, ListsOk, Matched, RemoteUnique, PacketsOk, IdsOk, SentOk, XactOk;
    var s, t, u := worlds[0].a, worlds[1].a, worlds[2].a;
    var e := moves[0].event;
    var r := s.free[0];
    assert Moves(worlds[0], moves[0], worlds[1], path) && Moves(worlds[1], moves[1], worlds[2], path);
    StepKeeps(s, e, t);
    StepKeeps(t, EvCommit(r), u);
    StepTime(s, e, t);
    StepTime(t, EvCommit(r), u);
    var x := LocalCreateShape(s, e.node, e.kind, e.teid, e.buffer);
    RequestIsOwnStep(x);
    CommitSendsStored(t, r);
    forall q | IsRequester(u, q, path, req)
      ensures RequesterOnTime(u.xacts[q], u.now, path, req)
    {
      assert !IsRequester(s, q, path, req);
      if q != r {
        CommitFrame(t, r);
        CommitNoNew(t, r);
      }
    }
  }

  /** The phase before move `n`. */
  function PhaseAt(worlds: seq<World>, moves: seq<Move>, path: Path, req: Request, n: nat): Phase
    requires n <= |moves| && n <= |worlds|
  {
    if n == 0 then Waiting
    else NextPhase(PhaseAt(worlds, moves, path, req, n - 1), worlds[n - 1], moves[n - 1], path, req)
  }

  lemma {:induction false} ExchangeKeeps(worlds: seq<World>, moves: seq<Move>, path: Path, req: Request, n: nat)
    requires Exchange(worlds, moves, path, req) && 2 <= n < |worlds| && path.delay + 2 * path.slack <= T3_RESPONSE
    ensures ASide(worlds[n].a, path, req) && BSide(worlds[n].b, path, req, PhaseAt(worlds, moves, path, req, n))
    ensures worlds[n].a.now == worlds[n].b.now
  {
    hide ASide, BSide, Steps, InTransit, Ready, Proper, Prompt;
    if n == 2 {
      Begin(worlds, moves, path, req);
      assert PhaseAt(worlds, moves, path, req, 1) == Waiting;
    } else {
      ExchangeKeeps(worlds, moves, path, req, n - 1);
      var w, m, v := worlds[n - 1], moves[n - 1], worlds[n];
      var phase := PhaseAt(worlds, moves, path, req, n - 1);
      assert Moves(w, m, v, path) && Proper(w, m, path, req);
      match m
      case AtA(e) => AMove(w, e, v, path, req, phase);
      case AtB(e) => BMove(w, e, v, path, req, phase);
      case Pass(d) => PassKeeps(w, d, v, path, req, phase);
    }
  }

  lemma AMove(w: World, e: Event, v: World, path: Path, req: Request, phase: Phase)
    requires ASide(w.a, path, req) && BSide(w.b, path, req, phase) && w.a.now == w.b.now
    requires Moves(w, AtA(e), v, path) && Proper(w, AtA(e), path, req)
    ensures ASide(v.a, path, req) && BSide(v.b, path, req, phase) && v.a.now == v.b.now
  {
    hide BSide, Steps;
    ASideStep(w.a, e, v.a, path, req);
  }

  lemma BMove(w: World, e: Event, v: World, path: Path, req: Request, phase: Phase)
    requires ASide(w.a, path, req) && BSide(w.b, path, req, phase) && w.a.now == w.b.now
    requires Moves(w, AtB(e), v, path) && Proper(w, AtB(e), path, req)
    requires path.delay + 2 * path.slack <= T3_RESPONSE
    ensures ASide(v.a, path, req) && BSide(v.b, path, req, NextPhase(phase, w, AtB(e), path, req))
    ensures v.a.now == v.b.now
  {
    hide BSide, Steps;
    BSideStep(w, e, v, path, req, phase);
  }

  // ---- phases and what was received

  ghost predicate DeliveredBefore(moves: seq<Move>, path: Path, req: Request, n: nat) {
    exists j :: 0 <= j < n && j < |moves| && IsCopy(moves[j], path, req)
  }

  ghost predicate FinalBefore(moves: seq<Move>, path: Path, req: Request, n: nat) {
    exists j :: 0 <= j < n && j < |moves| && IsFinal(moves[j], path, req)
  }

  lemma {:induction false} PhaseMeans(worlds: seq<World>, moves: seq<Move>, path: Path, req: Request, n: nat)
    requires n <= |moves| && n <= |worlds|
    ensures var phase := PhaseAt(worlds, moves, path, req, n);
      && (phase.Closed? || phase.Reopened? <==> FinalBefore(moves, path, req, n))
      && (phase.Taken? <==> DeliveredBefore(moves, path, req, n) && !FinalBefore(moves, path, req, n))
  {
    hide IsCopy, IsFinal;
    if n > 0 {
      Disjoint(moves, n, path, req);
      PhaseMeans(worlds, moves, path, req, n - 1);
      assert DeliveredBefore(moves, path, req, n) <==> DeliveredBefore(moves, path, req, n - 1) || IsCopy(moves[n - 1], path, req);
      assert FinalBefore(moves, path, req, n) <==> FinalBefore(moves, path, req, n - 1) || IsFinal(moves[n - 1], path, req);
    }
  }

  lemma Disjoint(moves: seq<Move>, n: nat, path: Path, req: Request)
    requires 0 < n <= |moves|
    ensures !(IsCopy(moves[n - 1], path, req) && IsFinal(moves[n - 1], path, req))
  {
  }

  /** Where the responder took in the request: it is held from then on. */
  lemma {:induction false} WhenTaken(worlds: seq<World>, moves: seq<Move>, path: Path, req: Request, n: nat) returns (i: nat)
    requires n <= |moves| && n <= |worlds| && PhaseAt(worlds, moves, path, req, n).Taken?
    ensures i < n && IsCopy(moves[i], path, req) && PhaseAt(worlds, moves, path, req, i).Waiting?
    ensures PhaseAt(worlds, moves, path, req, n).since == worlds[i].b.now
  {
    hide IsCopy, IsFinal;
    if PhaseAt(worlds, moves, path, req, n - 1).Taken? {
      i := WhenTaken(worlds, moves, path, req, n - 1);
    } else {
      i := n - 1;
    }
  }

  /** The responder's answer to a copy. */
  function Verdict(w: World, m: Move): Outcome<Received>
    requires m.AtB? && m.event.EvReceive? && m.event.node in w.b.nodes
  {
    Receive(w.b, m.event.node, m.event.kind, m.event.sqn)
  }

  /** What every copy meets, in a run that reaches no failing assertion: the first one is accepted, those before the
      final message are retries, and the first one after it is accepted anew. */
  lemma EveryCopyVerdict(worlds: seq<World>, moves: seq<Move>, path: Path, req: Request, n: nat)
    requires Exchange(worlds, moves, path, req) && path.delay + 2 * path.slack <= T3_RESPONSE
    requires n < |moves| && IsCopy(moves[n], path, req) && moves[n].event.node in worlds[n].b.nodes
    ensures Verdict(worlds[n], moves[n]).Done?
    ensures var status := Verdict(worlds[n], moves[n]).value.status;
      match PhaseAt(worlds, moves, path, req, n)
      case Waiting => status.Ok?
      case Taken(_) => status.Retry?
      case Closed => status.Ok?
      case Reopened => true
  {
    hide Inv, ASide, BSide, InTransit, Ready;
    ExchangeKeeps(worlds, moves, path, req, n);
    var w, m := worlds[n], moves[n];
    assert Moves(w, m, worlds[n + 1], path);
    var phase := PhaseAt(worlds, moves, path, req, n);
    if !phase.Reopened? { CopyVerdict(w, m.event.kind, m.event.sqn, path, req, phase); }
  }

  /** At most once: until the responder has received the final message, which for unflagged identifiers it never does,
      the first copy of the request is accepted and every later one is a retry. */
  lemma DeliveredAtMostOnce(worlds: seq<World>, moves: seq<Move>, path: Path, req: Request, n: nat)
    requires Exchange(worlds, moves, path, req) && path.delay + 2 * path.slack <= T3_RESPONSE
    requires n < |moves| && IsCopy(moves[n], path, req) && moves[n].event.node in worlds[n].b.nodes
    requires !FinalBefore(moves, path, req, n)
    ensures Verdict(worlds[n], moves[n]).Done?
    ensures Verdict(worlds[n], moves[n]).value.status ==
      if DeliveredBefore(moves, path, req, n) then Retry else Ok
  {
    hide Ready, Proper, Moves;
    EveryCopyVerdict(worlds, moves, path, req, n);
    PhaseMeans(worlds, moves, path, req, n);
  }

  /** What a copy meets, by phase: a failing assertion exactly when the pool is empty for the first one, or when the
      responder is still there after the final message. */
  lemma CopyVerdict(w: World, kind: Kind, sqn: Sqn, path: Path, req: Request, phase: Phase)
    requires ASide(w.a, path, req) && BSide(w.b, path, req, phase) && w.a.now == w.b.now && !phase.Reopened?
    requires path.delay + 2 * path.slack <= T3_RESPONSE && path.bNode in w.b.nodes
    requires InTransit(w, path, kind, sqn) && SqnToXid(sqn) == req.xid && StageOf(kind, req.xid).Initial?
    ensures var r := Receive(w.b, path.bNode, kind, sqn);
      if phase.Taken? then r.Done? && r.value.status.Retry?
      else
        && (r.Done? <==> NotYet(w.b, path, req) && w.b.free != [])
        && (r.Done? ==> r.value.status.Ok?)
  {
    hide PoolOk, ListsOk, Matched, RemoteUnique, PacketsOk, IdsOk, SentOk, XactOk, SendsOnTime, InTransit;
    CopiesAreOfRequest(w, path, req, kind, sqn);
    if phase.Taken? {
      var q :| IsResponder(w.b, q, path, req) && Holding(w.b.xacts[q], req, phase.since, w.b.now);
      HeldCopyIsRetry(w.b, path, req, q, kind, sqn);
    } else if NotYet(w.b, path, req) {
      NotYetFindsNone(w.b, path, req, kind);
      ReceiveSurvivesIff(w.b, path.bNode, kind, sqn);
      if w.b.free != [] { ReceiveCreatesInitial(w.b, path.bNode, kind, sqn); }
    } else {
      var q :| IsResponder(w.b, q, path, req);
      ClosedCopyAborts(w.b, path, req, q, kind, sqn);
    }
  }
}
