/** The other direction of a three-message exchange: what the sender of a command makes of the request it triggers. */
module GtpXactTriggered {
  import opened Wrappers
  import opened GtpMessages
  import opened GtpXactModel
  import opened GtpXactInvariant
  import opened GtpXactSteps
  import opened GtpXactRuns
  import opened GtpXactExchange

  /** A copy of the triggered request reaches A. */
  predicate IsTriggered(m: Move, path: Path, req: Request) {
    && m.AtA? && m.event.EvReceive? && m.event.node == path.aNode
    && SqnToXid(m.event.sqn) == req.xid && StageOf(m.event.kind, req.xid).Intermediate?
  }

  /** Not triggered yet; taken in at some time; or the application has removed the node. */
  datatype Trigger = Asked | Got(kind: Kind, since: Time) | Wiped

  function NextTrigger(g: Trigger, now: Time, m: Move, path: Path, req: Request): Trigger {
    if m == AtA(EvDeleteAll(path.aNode)) then Wiped
    else if IsTriggered(m, path, req) && g.Asked? then Got(m.event.kind, now)
    else g
  }

  // ---- the transaction of the command

  /** When the sender of the command stops waiting. */
  function WaitsUntil(req: Request): Time {
    req.start + T3_RESPONSE_RETRIES * T3_RESPONSE
  }

  /** It waits, and its retries reach that far. */
  predicate WaitsOn(x: Xact, req: Request) {
    x.step == 1 && x.response.Some? && WaitsUntil(req) <= GivesUpAt(x)
  }

  /** It has taken in the triggered request, and is held. */
  predicate HeldOn(x: Xact, kind: Kind, since: Time) {
    && 2 <= x.step && x.slots[1].kind == kind && x.response.None?
    && x.holding.Some? && HoldsUntil(since) <= x.holding.value
  }

  ghost predicate SomeRequester(s: State, path: Path, req: Request) {
    exists r :: IsRequester(s, r, path, req)
  }

  ghost predicate OneRequester(s: State, path: Path, req: Request) {
    forall p, q :: IsRequester(s, p, path, req) && IsRequester(s, q, path, req) ==> p == q
  }

  ghost predicate TriggerSide(s: State, path: Path, req: Request, g: Trigger) {
    && Inv(s) && OneRequester(s, path, req)
    && match g
       case Asked =>
         && (forall r :: IsRequester(s, r, path, req) ==> WaitsOn(s.xacts[r], req))
         && (SomeRequester(s, path, req) || WaitsUntil(req) <= s.now)
       case Got(kind, since) =>
         && since <= s.now && StageOf(kind, req.xid).Intermediate?
         && (forall r :: IsRequester(s, r, path, req) ==> HeldOn(s.xacts[r], kind, since))
         && (SomeRequester(s, path, req) || HoldsUntil(since) <= s.now)
       case Wiped => !SomeRequester(s, path, req)
  }

  /** A copy of the triggered request finds the transaction of the command, and no other. */
  lemma TriggeredFinds(s: State, path: Path, req: Request, kind: Kind)
    requires Inv(s) && OneRequester(s, path, req) && path.aNode in s.nodes && StageOf(kind, req.xid).Intermediate?
    ensures var found := Found(s, path.aNode, kind, req.xid);
      && (found.Some? <==> SomeRequester(s, path, req))
      && (found.Some? ==> IsRequester(s, found.value, path, req) && XactOk(s.xacts[found.value]))
  {
    hide PoolOk, Matched, PacketsOk, IdsOk, SentOk, XactOk, RemoteUnique;
    var found := Found(s, path.aNode, kind, req.xid);
    OnListIsLive(s, path.aNode, Local);
    if found.Some? {
      FoundIs(s, path.aNode, kind, req.xid);
      assert IsRequester(s, found.value, path, req);
    }
  }

  /** What a copy of the triggered request meets: it is taken in once, repeated while the transaction is held, and fatal
      when the transaction is gone or has taken in another one. */
  lemma TriggeredVerdict(s: State, path: Path, req: Request, g: Trigger, kind: Kind, sqn: Sqn)
    requires TriggerSide(s, path, req, g) && path.aNode in s.nodes
    requires SqnToXid(sqn) == req.xid && StageOf(kind, req.xid).Intermediate?
    ensures var r := Receive(s, path.aNode, kind, sqn);
      match g
      case Asked =>
        && (r.Done? <==> SomeRequester(s, path, req))
        && (r.Done? ==> r.value.status.Ok?)
        && (s.now < WaitsUntil(req) ==> r.Done?)
      case Got(k, since) =>
        && (r.Done? <==> kind == k && SomeRequester(s, path, req))
        && (r.Done? ==> r.value.status.Retry?)
        && (s.now < HoldsUntil(since) ==> (r.Done? <==> kind == k))
      case Wiped => r.Abort?
  {
    hide PoolOk, Matched, PacketsOk, IdsOk, SentOk, RemoteUnique, ListsOk;
    TriggeredFinds(s, path, req, kind);
    ReceiveSurvivesIff(s, path.aNode, kind, sqn);
  }

  // ---- the steps of A

  /** No step but its creation makes A a transaction for the command. */
  lemma RequesterWasThere(s: State, e: Event, t: State, r: Ref, path: Path, req: Request)
    requires Inv(s) && Steps(s, e, t) && IsRequester(t, r, path, req)
    requires e.EvCreate? ==> e.node != path.aNode || NextId(s.lastId) != req.xid
    ensures IsRequester(s, r, path, req)
  {
    hide PoolOk, ListsOk, Matched, RemoteUnique, PacketsOk, IdsOk, SentOk, XactOk;
    if r in s.xacts {
      StepContinues(s, e, t, r);
    } else {
      NewcomersFresh(s, e, t, r);
    }
  }

  /** A step that does not act on the transaction of the command leaves it, unless it removes the node. */
  lemma UntouchedStays(s: State, e: Event, t: State, r: Ref, path: Path, req: Request)
    requires Inv(s) && Steps(s, e, t) && IsRequester(s, r, path, req) && Target(s, e) != Some(r)
    requires e != EvDeleteAll(path.aNode)
    ensures IsRequester(t, r, path, req) && SameButPartner(t.xacts[r], s.xacts[r])
  {
    hide PoolOk, ListsOk, Matched, RemoteUnique, PacketsOk, IdsOk, SentOk, XactOk;
    OthersKept(s, e, t, r);
  }

  /** While it waits: another send, or the end of its retries; or the triggered request. */
  lemma WaitingTouched(s: State, e: Event, t: State, r: Ref, path: Path, req: Request)
    requires Inv(s) && Steps(s, e, t) && IsRequester(s, r, path, req) && Target(s, e) == Some(r) && t.now == s.now
    requires WaitsOn(s.xacts[r], req) && Flagged(req.xid)
    requires e.EvCommit? ==> e.ref != r
    ensures if IsTriggered(AtA(e), path, req) then
              IsRequester(t, r, path, req) && HeldOn(t.xacts[r], e.kind, s.now)
            else if IsRequester(t, r, path, req) then WaitsOn(t.xacts[r], req)
            else WaitsUntil(req) <= s.now
  {
    hide PoolOk, Matched, RemoteUnique, PacketsOk, IdsOk, SentOk, ListsOk;
    assert XactOk(s.xacts[r]);
    match e
    case EvAnswer(_, kind, teid, buffer) => AnswerShape(s, r, kind, teid, buffer);
    case EvReceive(node, kind, sqn) => WaitingReceives(s, t, r, path, req, node, kind, sqn);
    case EvResponseTimeout(_) => WaitingExpires(s, t, r, path, req);
    case EvHoldingTimeout(_) =>
  }

  lemma WaitingReceives(s: State, t: State, r: Ref, path: Path, req: Request, node: NodeId, kind: Kind, sqn: Sqn)
    requires Inv(s) && IsRequester(s, r, path, req) && WaitsOn(s.xacts[r], req) && Flagged(req.xid)
    requires Steps(s, EvReceive(node, kind, sqn), t) && Found(s, node, kind, SqnToXid(sqn)) == Some(r)
    ensures IsTriggered(AtA(EvReceive(node, kind, sqn)), path, req)
    ensures IsRequester(t, r, path, req) && HeldOn(t.xacts[r], kind, s.now)
  {
    hide PoolOk, Matched, RemoteUnique, PacketsOk, IdsOk, SentOk, ListsOk;
    assert XactOk(s.xacts[r]);
    FoundIs(s, node, kind, SqnToXid(sqn));
  }

  lemma WaitingExpires(s: State, t: State, r: Ref, path: Path, req: Request)
    requires Inv(s) && IsRequester(s, r, path, req) && WaitsOn(s.xacts[r], req) && Steps(s, EvResponseTimeout(r), t)
    ensures if IsRequester(t, r, path, req) then WaitsOn(t.xacts[r], req) else WaitsUntil(req) <= s.now
  {
    hide PoolOk, Matched, RemoteUnique, PacketsOk, IdsOk, SentOk, ListsOk;
    assert XactOk(s.xacts[r]);
    ResponseTimeoutShape(s, r);
    hide SlotOk;
    if s.xacts[r].responseCount == 1 {
      DeleteKeeps(s, r);
      DeleteShape(s, r);
    }
  }

  /** While it is held: repeats, the answer, its sends; or the end of its holding time. */
  lemma HeldTouchedAtA(s: State, e: Event, t: State, r: Ref, path: Path, req: Request, kind: Kind, since: Time)
    requires Inv(s) && Inv(t) && Steps(s, e, t) && IsRequester(s, r, path, req) && Target(s, e) == Some(r) && t.now == s.now
    requires HeldOn(s.xacts[r], kind, since) && since <= s.now && Flagged(req.xid) && StageOf(kind, req.xid).Intermediate?
    ensures if IsRequester(t, r, path, req) then HeldOn(t.xacts[r], kind, since) else HoldsUntil(since) <= s.now
  {
    hide PoolOk, Matched, RemoteUnique, PacketsOk, IdsOk, SentOk, ListsOk;
    assert XactOk(s.xacts[r]);
    match e
    case EvAnswer(_, k, teid, buffer) => AnswerShape(s, r, k, teid, buffer);
    case EvCommit(_) => HeldCommits(s, t, r, path, req, kind, since);
    case EvReceive(node, k, sqn) => HeldReceives(s, t, r, path, req, kind, since, node, k, sqn);
    case EvHoldingTimeout(_) =>
      HoldingTimeoutKeeps(s, r);
      DeleteShape(s, r);
  }

  lemma HeldCommits(s: State, t: State, r: Ref, path: Path, req: Request, kind: Kind, since: Time)
    requires Inv(s) && Inv(t) && IsRequester(s, r, path, req) && Steps(s, EvCommit(r), t)
    requires HeldOn(s.xacts[r], kind, since) && StageOf(kind, req.xid).Intermediate?
    ensures IsRequester(t, r, path, req) && HeldOn(t.xacts[r], kind, since)
  {
    hide PoolOk, Matched, RemoteUnique, PacketsOk, IdsOk, SentOk, ListsOk;
    assert XactOk(s.xacts[r]);
    CommitSendsStored(s, r);
    CommitAbortsIff(s, r);
    assert XactOk(t.xacts[r]);
  }

  lemma HeldReceives(s: State, t: State, r: Ref, path: Path, req: Request, kind: Kind, since: Time,
    node: NodeId, k: Kind, sqn: Sqn)
    requires Inv(s) && IsRequester(s, r, path, req) && Flagged(req.xid) && StageOf(kind, req.xid).Intermediate?
    requires Steps(s, EvReceive(node, k, sqn), t) && Found(s, node, k, SqnToXid(sqn)) == Some(r)
    requires HeldOn(s.xacts[r], kind, since) && since <= s.now
    ensures IsRequester(t, r, path, req) && HeldOn(t.xacts[r], kind, since)
  {
    hide PoolOk, Matched, RemoteUnique, PacketsOk, IdsOk, SentOk, ListsOk;
    assert XactOk(s.xacts[r]);
    FoundIs(s, node, k, SqnToXid(sqn));
    ReceiveSurvivesIff(s, node, k, sqn);
    RetryChangesNothing(s, node, k, sqn);
  }

  lemma TriggerStep(s: State, e: Event, t: State, path: Path, req: Request, g: Trigger)
    requires TriggerSide(s, path, req, g) && Steps(s, e, t) && !e.EvAdvance? && Flagged(req.xid)
    requires e.EvCreate? ==> e.node != path.aNode || NextId(s.lastId) != req.xid
    requires e.EvCommit? ==> !(IsRequester(s, e.ref, path, req) && s.xacts[e.ref].step == 1)
    ensures TriggerSide(t, path, req, NextTrigger(g, s.now, AtA(e), path, req)) && t.now == s.now
  {
    hide Inv, Steps, HeldOn, WaitsOn, IsRequester, IsTriggered, Target;
    StepKeeps(s, e, t);
    StepTime(s, e, t);
    forall r | IsRequester(t, r, path, req)
      ensures IsRequester(s, r, path, req)
    {
      RequesterWasThere(s, e, t, r, path, req);
    }
    if e == EvDeleteAll(path.aNode) {
      WipedAway(s, t, path, req);
    } else if SomeRequester(s, path, req) {
      var r :| IsRequester(s, r, path, req);
      RequesterStepAtA(s, e, t, r, path, req, g);
    } else {
      NothingTriggered(s, e, t, path, req);
    }
  }

  lemma WipedAway(s: State, t: State, path: Path, req: Request)
    requires Inv(s) && Steps(s, EvDeleteAll(path.aNode), t)
    ensures !SomeRequester(t, path, req)
  {
    hide PoolOk, ListsOk, Matched, RemoteUnique, PacketsOk, IdsOk, SentOk, XactOk;
    DeleteAllKeeps(s, path.aNode);
    forall r
      ensures !IsRequester(t, r, path, req)
    {
      if IsRequester(t, r, path, req) {
        RequesterWasThere(s, EvDeleteAll(path.aNode), t, r, path, req);
      }
    }
  }

  /** Without the transaction a triggered request is fatal. */
  lemma NothingTriggered(s: State, e: Event, t: State, path: Path, req: Request)
    requires Inv(s) && Steps(s, e, t) && !SomeRequester(s, path, req)
    ensures !IsTriggered(AtA(e), path, req)
  {
    hide PoolOk, Matched, PacketsOk, IdsOk, SentOk, RemoteUnique, ListsOk, XactOk;
    if IsTriggered(AtA(e), path, req) {
      TriggeredFinds(s, path, req, e.kind);
      ReceiveSurvivesIff(s, e.node, e.kind, e.sqn);
    }
  }

  lemma RequesterStepAtA(s: State, e: Event, t: State, r: Ref, path: Path, req: Request, g: Trigger)
    requires TriggerSide(s, path, req, g) && Steps(s, e, t) && t.now == s.now && Inv(t) && Flagged(req.xid)
    requires IsRequester(s, r, path, req) && e != EvDeleteAll(path.aNode)
    requires e.EvCommit? ==> !(IsRequester(s, e.ref, path, req) && s.xacts[e.ref].step == 1)
    ensures match NextTrigger(g, s.now, AtA(e), path, req)
      case Asked => if IsRequester(t, r, path, req) then WaitsOn(t.xacts[r], req) else WaitsUntil(req) <= s.now
      case Got(kind, since) =>
        && since <= s.now && StageOf(kind, req.xid).Intermediate?
        && if IsRequester(t, r, path, req) then HeldOn(t.xacts[r], kind, since) else HoldsUntil(since) <= s.now
      case Wiped => false
  {
    hide Inv;
    assert SomeRequester(s, path, req);
    if Target(s, e) == Some(r) {
      match g
      case Asked => WaitingTouched(s, e, t, r, path, req);
      case Got(kind, since) => HeldTouchedAtA(s, e, t, r, path, req, kind, since);
      case Wiped =>
    } else {
      UntouchedStays(s, e, t, r, path, req);
      TriggeredTouches(s, e, r, path, req);
    }
  }

  /** A triggered request acts on the transaction of the command. */
  lemma TriggeredTouches(s: State, e: Event, r: Ref, path: Path, req: Request)
    requires Inv(s) && OneRequester(s, path, req) && Enabled(s, e) && IsRequester(s, r, path, req)
    ensures IsTriggered(AtA(e), path, req) ==> Target(s, e) == Some(r)
  {
    hide Inv;
    if IsTriggered(AtA(e), path, req) {
      TriggeredFinds(s, path, req, e.kind);
      assert SomeRequester(s, path, req);
    }
  }

  // ---- runs

  /** What A has made of the command before move `n`. */
  function TriggerAt(worlds: seq<World>, moves: seq<Move>, path: Path, req: Request, n: nat): Trigger
    requires n <= |moves| && n <= |worlds|
  {
    if n <= 2 then Asked
    else NextTrigger(TriggerAt(worlds, moves, path, req, n - 1), worlds[n - 1].a.now, moves[n - 1], path, req)
  }

  lemma TriggerBegin(worlds: seq<World>, moves: seq<Move>, path: Path, req: Request)
    requires Exchange(worlds, moves, path, req)
    ensures TriggerSide(worlds[2].a, path, req, Asked)
  {
    hide PoolOk, ListsOk, Matched, RemoteUnique, PacketsOk, IdsOk, SentOk, XactOk;
    var s, t, u := worlds[0].a, worlds[1].a, worlds[2].a;
    var e := moves[0].event;
    var r := s.free[0];
    assert Moves(worlds[0], moves[0], worlds[1], path) && Moves(worlds[1], moves[1], worlds[2], path);
    StepKeeps(s, e, t);
    StepKeeps(t, EvCommit(r), u);
    StepTime(s, e, t);
    StepTime(t, EvCommit(r), u);
    var x := LocalCreateShape(s, e.node, e.kind, e.teid, e.buffer);
    RequestIsOwnStep(x);
    CommitSendsStored(t, r);
    assert IsRequester(u, r, path, req) && WaitsOn(u.xacts[r], req);
    forall q | IsRequester(u, q, path, req)
      ensures q == r
    {
      assert !IsRequester(s, q, path, req);
      CommitFrame(t, r);
      CommitNoNew(t, r);
    }
  }

  lemma TriggerPass(s: State, d: Time, t: State, path: Path, req: Request, g: Trigger)
    requires TriggerSide(s, path, req, g) && Steps(s, EvAdvance(d), t)
    ensures TriggerSide(t, path, req, g)
  {
    hide Inv, HeldOn, WaitsOn;
    StepKeeps(s, EvAdvance(d), t);
    assert t.xacts == s.xacts && t.now == s.now + d;
    assert forall r :: IsRequester(t, r, path, req) <==> IsRequester(s, r, path, req);
  }

  /** Along every run, whatever the network does: A waits for the triggered request until its retries are used up, and holds
      its transaction for three response times from the first copy on. */
  lemma {:induction false} TriggerKeeps(worlds: seq<World>, moves: seq<Move>, path: Path, req: Request, n: nat)
    requires Exchange(worlds, moves, path, req) && Flagged(req.xid) && 2 <= n < |worlds|
    ensures TriggerSide(worlds[n].a, path, req, TriggerAt(worlds, moves, path, req, n))
  {
    hide TriggerSide, Steps, InTransit, Ready, Proper, Prompt, IsTriggered;
    if n == 2 {
      TriggerBegin(worlds, moves, path, req);
    } else {
      TriggerKeeps(worlds, moves, path, req, n - 1);
      var w, m, v := worlds[n - 1], moves[n - 1], worlds[n];
      var g := TriggerAt(worlds, moves, path, req, n - 1);
      assert Moves(w, m, v, path) && Proper(w, m, path, req);
      match m
      case AtA(e) => TriggerMove(w, e, v, path, req, g);
      case AtB(e) => NotTriggered(m, path, req);
      case Pass(d) => TriggerPass(w.a, d, v.a, path, req, g); NotTriggered(m, path, req);
    }
  }

  lemma TriggerMove(w: World, e: Event, v: World, path: Path, req: Request, g: Trigger)
    requires TriggerSide(w.a, path, req, g) && Moves(w, AtA(e), v, path) && Proper(w, AtA(e), path, req) && Flagged(req.xid)
    ensures TriggerSide(v.a, path, req, NextTrigger(g, w.a.now, AtA(e), path, req))
  {
    hide TriggerSide, Steps;
    TriggerStep(w.a, e, v.a, path, req, g);
  }

  lemma NotTriggered(m: Move, path: Path, req: Request)
    requires !m.AtA?
    ensures !IsTriggered(m, path, req)
  {
  }

  ghost predicate TriggeredBefore(moves: seq<Move>, path: Path, req: Request, n: nat) {
    exists j :: 0 <= j < n && j < |moves| && IsTriggered(moves[j], path, req)
  }

  lemma {:induction false} TriggerMeans(worlds: seq<World>, moves: seq<Move>, path: Path, req: Request, n: nat)
    requires Exchange(worlds, moves, path, req) && 2 <= n <= |moves|
    ensures var g := TriggerAt(worlds, moves, path, req, n);
      && (g.Asked? ==> !TriggeredBefore(moves, path, req, n))
      && (g.Got? ==> TriggeredBefore(moves, path, req, n))
  {
    hide IsTriggered, Moves, Proper, Ready;
    if n == 2 {
      assert !IsTriggered(moves[0], path, req) && !IsTriggered(moves[1], path, req) by { FirstTwo(moves, path, req); }
    } else {
      TriggerMeans(worlds, moves, path, req, n - 1);
      assert TriggeredBefore(moves, path, req, n) <==>
        TriggeredBefore(moves, path, req, n - 1) || IsTriggered(moves[n - 1], path, req);
    }
  }

  lemma FirstTwo(moves: seq<Move>, path: Path, req: Request)
    requires 2 <= |moves| && moves[0].AtA? && moves[0].event.EvCreate? && moves[1].AtA? && moves[1].event.EvCommit?
    ensures !IsTriggered(moves[0], path, req) && !IsTriggered(moves[1], path, req)
  {
  }

  /** The sender of the command accepts the triggered request at most once, in every run and for every delay: the first
      copy is accepted, and every later one that reaches no failing assertion is a retry. */
  lemma TriggeredAtMostOnce(worlds: seq<World>, moves: seq<Move>, path: Path, req: Request, n: nat)
    requires Exchange(worlds, moves, path, req) && Flagged(req.xid)
    requires n < |moves| && IsTriggered(moves[n], path, req) && path.aNode in worlds[n].a.nodes
    ensures var r := Receive(worlds[n].a, path.aNode, moves[n].event.kind, moves[n].event.sqn);
      r.Done? && r.value.status == if TriggeredBefore(moves, path, req, n) then Retry else Ok
  {
    hide TriggerSide, Receive, Ready, Proper, InTransit;
    FirstTwo(moves, path, req);
    assert n >= 2;
    TriggerKeeps(worlds, moves, path, req, n);
    TriggerMeans(worlds, moves, path, req, n);
    assert Moves(worlds[n], moves[n], worlds[n + 1], path);
    assert Receive(worlds[n].a, path.aNode, moves[n].event.kind, moves[n].event.sqn).Done?;
    TriggeredVerdict(worlds[n].a, path, req, TriggerAt(worlds, moves, path, req, n), moves[n].event.kind, moves[n].event.sqn);
  }

  /** At every moment of every run: a copy of the triggered request would be fatal if and only if the transaction of the
      command is gone, or has taken in one of another type. It is not gone before its retries are used up while it waits,
      nor before three response times are over from when it took in the first copy, unless the application removes the node. */
  lemma TriggeredFatalIff(worlds: seq<World>, moves: seq<Move>, path: Path, req: Request, n: nat, kind: Kind, sqn: Sqn)
    requires Exchange(worlds, moves, path, req) && Flagged(req.xid) && 2 <= n <= |moves|
    requires path.aNode in worlds[n].a.nodes && SqnToXid(sqn) == req.xid && StageOf(kind, req.xid).Intermediate?
    ensures var s, g := worlds[n].a, TriggerAt(worlds, moves, path, req, n);
      && (Receive(s, path.aNode, kind, sqn).Abort? <==> !SomeRequester(s, path, req) || (g.Got? && kind != g.kind))
      && (!SomeRequester(s, path, req) ==>
            || g.Wiped?
            || (g.Asked? && WaitsUntil(req) <= s.now)
            || (g.Got? && HoldsUntil(g.since) <= s.now))
  {
    hide Inv, HeldOn, WaitsOn, Receive, Ready, Proper, Moves;
    TriggerKeeps(worlds, moves, path, req, n);
    TriggeredVerdict(worlds[n].a, path, req, TriggerAt(worlds, moves, path, req, n), kind, sqn);
  }
}
