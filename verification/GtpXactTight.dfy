/** The bound on the delay under which a request is delivered at most once is exact. */
module GtpXactTight {
  import opened Wrappers
  import opened GtpMessages
  import opened GtpXactModel
  import opened GtpXactInvariant
  import opened GtpXactRuns
  import opened GtpXactExchange

  ghost predicate Accepts(worlds: seq<World>, moves: seq<Move>, path: Path, req: Request, n: nat) {
    && n < |moves| && n < |worlds| && IsCopy(moves[n], path, req) && moves[n].event.node in worlds[n].b.nodes
    && Verdict(worlds[n], moves[n]).Done? && Verdict(worlds[n], moves[n]).value.status.Ok?
  }

  /** A run in which the responder takes in the same request twice. */
  ghost predicate TwiceAccepted(worlds: seq<World>, moves: seq<Move>, path: Path, req: Request) {
    && Exchange(worlds, moves, path, req)
    && exists i, j :: 0 <= i < j && Accepts(worlds, moves, path, req, i) && Accepts(worlds, moves, path, req, j)
  }

  /** A copy arrives after the responder has received the final message. */
  ghost predicate LateCopy(moves: seq<Move>, path: Path, req: Request) {
    exists f, n :: 0 <= f < n < |moves| && IsFinal(moves[f], path, req) && IsCopy(moves[n], path, req)
  }

  /** The final message apart, no run delivers a request twice. */
  ghost predicate AtMostOnce(path: Path) {
    forall worlds, moves, req :: TwiceAccepted(worlds, moves, path, req) ==> LateCopy(moves, path, req)
  }

  /** No copy arrives, or the last resend arrives while the responder still holds its transaction. */
  predicate DelayBounded(path: Path) {
    path.delay == 0 || path.delay + 2 * path.slack <= T3_RESPONSE
  }

  /** A request is delivered at most once in every run, late copies apart, if and only if the delay is bounded so. */
  lemma AtMostOnceIff(path: Path)
    ensures AtMostOnce(path) <==> DelayBounded(path)
  {
    if DelayBounded(path) {
      forall worlds, moves, req | TwiceAccepted(worlds, moves, path, req)
        ensures LateCopy(moves, path, req)
      {
        TwiceOnlyLate(worlds, moves, path, req);
      }
    } else {
      CounterexampleAccepts(path);
      NoFinal(path);
    }
  }

  /** With the delay bounded, a run delivers a request twice if and only if a copy arrives after the final message. */
  lemma TwiceAcceptedIff(worlds: seq<World>, moves: seq<Move>, path: Path, req: Request)
    requires DelayBounded(path) && Exchange(worlds, moves, path, req)
    ensures TwiceAccepted(worlds, moves, path, req) <==> LateCopy(moves, path, req)
  {
    if TwiceAccepted(worlds, moves, path, req) { TwiceOnlyLate(worlds, moves, path, req); }
    if LateCopy(moves, path, req) { LateIsAccepted(worlds, moves, path, req); }
  }

  /** Without a flagged identifier there is no final message from the requester: at most once, in every run. */
  lemma UnflaggedAtMostOnce(worlds: seq<World>, moves: seq<Move>, path: Path, req: Request)
    requires DelayBounded(path) && Exchange(worlds, moves, path, req) && !Flagged(req.xid)
    ensures !TwiceAccepted(worlds, moves, path, req)
  {
    TwiceAcceptedIff(worlds, moves, path, req);
  }

  lemma TwiceOnlyLate(worlds: seq<World>, moves: seq<Move>, path: Path, req: Request)
    requires DelayBounded(path) && TwiceAccepted(worlds, moves, path, req)
    ensures LateCopy(moves, path, req)
  {
    hide Exchange, Verdict, IsCopy, IsFinal;
    var i, j :| 0 <= i < j && Accepts(worlds, moves, path, req, i) && Accepts(worlds, moves, path, req, j);
    SecondNeedsFinal(worlds, moves, path, req, i, j);
    var f :| 0 <= f < j && f < |moves| && IsFinal(moves[f], path, req);
  }

  /** A copy after another one is accepted only if the final message came in between. */
  lemma SecondNeedsFinal(worlds: seq<World>, moves: seq<Move>, path: Path, req: Request, i: nat, j: nat)
    requires DelayBounded(path) && Exchange(worlds, moves, path, req) && i < j && Accepts(worlds, moves, path, req, i)
    ensures Accepts(worlds, moves, path, req, j) ==> FinalBefore(moves, path, req, j)
  {
    hide Verdict, Exchange;
    if path.delay == 0 {
      if j < |moves| { NoCopyArrives(worlds, moves, path, req, j); }
    } else if Accepts(worlds, moves, path, req, j) && !FinalBefore(moves, path, req, j) {
      assert DeliveredBefore(moves, path, req, j);
      DeliveredAtMostOnce(worlds, moves, path, req, j);
    }
  }

  // ---- late copies

  lemma LateIsAccepted(worlds: seq<World>, moves: seq<Move>, path: Path, req: Request)
    requires DelayBounded(path) && Exchange(worlds, moves, path, req) && LateCopy(moves, path, req)
    ensures TwiceAccepted(worlds, moves, path, req)
  {
    hide Verdict, Ready, Moves, Proper, IsCopy, IsFinal;
    var f, n :| 0 <= f < n < |moves| && IsFinal(moves[f], path, req) && IsCopy(moves[n], path, req);
    if path.delay == 0 {
      NoCopyArrives(worlds, moves, path, req, n);
    } else {
      assert FinalBefore(moves, path, req, n);
      PhaseMeans(worlds, moves, path, req, n);
      var c := WhenReopened(worlds, moves, path, req, n + 1);
      var g := WhenClosed(worlds, moves, path, req, c);
      FinalIsTaken(worlds, moves, path, req, g);
      var i := WhenTaken(worlds, moves, path, req, g);
      CopyAccepted(worlds, moves, path, req, i);
      CopyAccepted(worlds, moves, path, req, c);
    }
  }

  lemma CopyAccepted(worlds: seq<World>, moves: seq<Move>, path: Path, req: Request, n: nat)
    requires path.delay + 2 * path.slack <= T3_RESPONSE && Exchange(worlds, moves, path, req)
    requires n < |moves| && IsCopy(moves[n], path, req)
    requires var phase := PhaseAt(worlds, moves, path, req, n); phase.Waiting? || phase.Closed?
    ensures Accepts(worlds, moves, path, req, n)
  {
    hide Ready, Proper, InTransit, Receive;
    assert Moves(worlds[n], moves[n], worlds[n + 1], path);
    EveryCopyVerdict(worlds, moves, path, req, n);
  }

  /** The first copy after the final message. */
  lemma {:induction false} WhenReopened(worlds: seq<World>, moves: seq<Move>, path: Path, req: Request, n: nat) returns (c: nat)
    requires n <= |moves| && n <= |worlds| && PhaseAt(worlds, moves, path, req, n).Reopened?
    ensures c < n && IsCopy(moves[c], path, req) && PhaseAt(worlds, moves, path, req, c).Closed?
  {
    hide IsCopy, IsFinal;
    if PhaseAt(worlds, moves, path, req, n - 1).Reopened? {
      c := WhenReopened(worlds, moves, path, req, n - 1);
    } else {
      c := n - 1;
    }
  }

  /** The final message itself. */
  lemma {:induction false} WhenClosed(worlds: seq<World>, moves: seq<Move>, path: Path, req: Request, n: nat) returns (f: nat)
    requires n <= |moves| && n <= |worlds| && PhaseAt(worlds, moves, path, req, n).Closed?
    ensures f < n && IsFinal(moves[f], path, req)
    ensures !PhaseAt(worlds, moves, path, req, f).Closed? && !PhaseAt(worlds, moves, path, req, f).Reopened?
  {
    hide IsCopy, IsFinal;
    if PhaseAt(worlds, moves, path, req, n - 1).Closed? {
      f := WhenClosed(worlds, moves, path, req, n - 1);
    } else {
      f := n - 1;
    }
  }

  /** The final message does not come before the request. */
  lemma FinalIsTaken(worlds: seq<World>, moves: seq<Move>, path: Path, req: Request, f: nat)
    requires path.delay + 2 * path.slack <= T3_RESPONSE && Exchange(worlds, moves, path, req)
    requires f < |moves| && IsFinal(moves[f], path, req)
    ensures !PhaseAt(worlds, moves, path, req, f).Waiting?
  {
    hide Inv, Steps, Proper, InTransit, Ready, NotYet, Kept, AllClosed;
    assert Moves(worlds[f], moves[f], worlds[f + 1], path);
    ExchangeKeeps(worlds, moves, path, req, f);
    ExchangeKeeps(worlds, moves, path, req, f + 1);
    FinalCloses(worlds[f].b, worlds[f + 1].b, path, req, moves[f].event.kind, moves[f].event.sqn);
  }

  // ---- no delay at all

  lemma NoCopyArrives(worlds: seq<World>, moves: seq<Move>, path: Path, req: Request, n: nat)
    requires path.delay == 0 && Exchange(worlds, moves, path, req) && n < |moves|
    ensures !IsCopy(moves[n], path, req)
  {
    hide Ready, Inv, Steps, Proper, InTransit;
    ClocksAgree(worlds, moves, path, req, n);
    NothingUnderWay(worlds[n], path);
    assert Moves(worlds[n], moves[n], worlds[n + 1], path);
  }

  lemma {:induction false} ClocksAgree(worlds: seq<World>, moves: seq<Move>, path: Path, req: Request, n: nat)
    requires Exchange(worlds, moves, path, req) && n < |worlds|
    ensures Inv(worlds[n].a) && Inv(worlds[n].b) && worlds[n].a.now == worlds[n].b.now
  {
    hide Inv, Steps, InTransit, Prompt, Proper;
    if n > 0 {
      ClocksAgree(worlds, moves, path, req, n - 1);
      var w, m, v := worlds[n - 1], moves[n - 1], worlds[n];
      assert Moves(w, m, v, path);
      match m
      case AtA(e) => StepKeeps(w.a, e, v.a); StepTime(w.a, e, v.a);
      case AtB(e) => StepKeeps(w.b, e, v.b); StepTime(w.b, e, v.b);
      case Pass(d) =>
        StepKeeps(w.a, EvAdvance(d), v.a);
        StepKeeps(w.b, EvAdvance(d), v.b);
        Advanced(w.a, d, v.a);
        Advanced(w.b, d, v.b);
    }
  }

  lemma Advanced(s: State, d: Time, t: State)
    requires Steps(s, EvAdvance(d), t)
    ensures t.now == s.now + d
  {
  }

  lemma NothingUnderWay(w: World, path: Path)
    requires Inv(w.a) && w.a.now == w.b.now && path.delay == 0
    ensures forall kind, sqn :: !InTransit(w, path, kind, sqn)
  {
    hide SlotsOk, PoolOk, ListsOk, Matched, RemoteUnique, PacketsOk, IdsOk;
  }

  // ---- a run with two deliveries

  const KIND := CREATE_SESSION_REQUEST
  const SQN: Sqn := 256

  function Sent(): Packet {
    HeaderOn(Buffer(0, []), KIND, 0, 1)
  }

  function Asking(path: Path, response: Option<Time>, count: nat): Xact {
    Xact(Local, 1, path.aNode, 1, [Slot(KIND, Some(Sent())), EMPTY, EMPTY], response, count, None, T3_DUPLICATED_RETRIES, None)
  }

  function Answering(path: Path, start: Time): Xact {
    Xact(Remote, 1, path.bNode, 1, [Slot(KIND, None), EMPTY, EMPTY], None, T3_RESPONSE_RETRIES,
         Some(start + T3_DUPLICATED), T3_DUPLICATED_RETRIES, None)
  }

  function Idle(node: NodeId, now: Time): State {
    State(now, 0, 1, [1], map[], map[node := Lists([], [])], [], 0, map[], {}, [])
  }

  /** A, waiting; it has sent at `times`. */
  function Waits(path: Path, now: Time, response: Option<Time>, count: nat, times: seq<Time>): State {
    State(now, 1, 1, [], map[1 := Asking(path, response, count)], map[path.aNode := Lists([1], [])],
          SentAt(path, times), 1, map[1 := 1], {0}, [])
  }

  function SentAt(path: Path, times: seq<Time>): seq<Sending> {
    seq(|times|, i requires 0 <= i < |times| => Sending(times[i], path.aNode, Sent()))
  }

  /** B, holding the transaction it took in at `start`. */
  function Holds(path: Path, now: Time, start: Time): State {
    State(now, 0, 1, [], map[1 := Answering(path, start)], map[path.bNode := Lists([], [1])], [], 0, map[], {}, [])
  }

  lemma IdleIsInitial(node: NodeId)
    ensures Idle(node, 0) == InitialState(1, {node}) && Inv(Idle(node, 0))
  {
    InitialInv(1, {node});
    assert seq(1, i requires 0 <= i < 1 => i + 1) == [1];
    assert InitialState(1, {node}).nodes == map[node := Lists([], [])];
  }

  lemma Overwritten<K, V>(k: K, v: V, w: V)
    ensures map[k := v][k := w] == map[k := w] && map[][k := w] == map[k := w] && map[k := v] - {k} == map[]
  {
  }

  lemma CreateStep(path: Path)
    ensures Steps(Idle(path.aNode, 0), EvCreate(path.aNode, KIND, 0, Buffer(0, [])), Waits(path, 0, None, 3, []))
  {
    assert [EMPTY, EMPTY, EMPTY][0 := Slot(KIND, Some(Sent()))] == [Slot(KIND, Some(Sent())), EMPTY, EMPTY];
    assert SentAt(path, []) == [];
    Overwritten(1, Asking(path, None, 3), Asking(path, None, 3));
    Overwritten(1, 1, 1);
    Overwritten(path.aNode, Lists([], []), Lists([1], []));
    assert [1][1..] == [] && [] + [1] == [1] && {} + {0} == {0};
    assert UpdateTx(FreshXact(Local, 1, path.aNode), KIND, 0, Buffer(0, [])) == Done(Asking(path, None, 3));
  }

  lemma CommitStep(path: Path)
    ensures Steps(Waits(path, 0, None, 3, []), EvCommit(1), Waits(path, 0, Some(T3_RESPONSE), 3, [0]))
  {
    hide Delete;
    Overwritten(1, Asking(path, None, 3), Asking(path, Some(T3_RESPONSE), 3));
    assert SentAt(path, []) + [Sending(0, path.aNode, Sent())] == SentAt(path, [0]);
  }

  lemma ExpiryStep(path: Path, now: Time, deadline: Time, count: nat, times: seq<Time>)
    requires 1 < count <= 3 && deadline <= now
    ensures Steps(Waits(path, now, Some(deadline), count, times), EvResponseTimeout(1),
                  Waits(path, now, Some(now + T3_RESPONSE), count - 1, times + [now]))
  {
    hide Delete;
    Overwritten(1, Asking(path, Some(deadline), count), Asking(path, Some(now + T3_RESPONSE), count - 1));
    assert SentAt(path, times) + [Sending(now, path.aNode, Sent())] == SentAt(path, times + [now]);
  }

  lemma ReceiveStep(path: Path, now: Time)
    ensures Steps(Idle(path.bNode, now), EvReceive(path.bNode, KIND, SQN), Holds(path, now, now))
    ensures Receive(Idle(path.bNode, now), path.bNode, KIND, SQN).Done?
    ensures Receive(Idle(path.bNode, now), path.bNode, KIND, SQN).value.status.Ok?
  {
    assert [EMPTY, EMPTY, EMPTY][0 := Slot(KIND, None)] == [Slot(KIND, None), EMPTY, EMPTY];
    Overwritten(1, Answering(path, now), Answering(path, now));
    Overwritten(path.bNode, Lists([], []), Lists([], [1]));
    assert [1][1..] == [] && [] + [1] == [1];
    assert FindByXid(Idle(path.bNode, now), path.bNode, KIND, 1) == Done(None);
    assert UpdateRx(FreshXact(Remote, 1, path.bNode), KIND, now) == Done(Accepted(Answering(path, now)));
  }

  lemma HoldingStep(path: Path, now: Time)
    requires now >= T3_DUPLICATED
    ensures Steps(Holds(path, now, 0), EvHoldingTimeout(1), Idle(path.bNode, now))
  {
    var x := Answering(path, 0);
    NothingHeld(x.slots);
    assert Without<Ref>([1], 1) == [] by { assert [1][1..] == []; }
    Overwritten(1, x, x);
    Overwritten(path.bNode, Lists([], [1]), Lists([], []));
    assert [] + [1] == [1] && [] + HeldBy(x.slots) == [];
    var births: map<Ref, nat> := map[];
    assert births - {1} == births;
  }

  lemma NothingHeld(slots: seq<Slot>)
    requires |slots| == 3 && slots[0].packet.None? && slots[1].packet.None? && slots[2].packet.None?
    ensures HeldBy(slots) == []
  {
    assert slots[1..][0] == slots[1] && slots[1..][1..] == slots[2..] && slots[2..][0] == slots[2] && slots[2..][1..] == [];
    assert HeldBy(slots[2..]) == [];
    assert HeldBy(slots[1..]) == [];
  }

  /** How late the timers of A fire: as late as they may. */
  function Second(path: Path): Time {
    T3_RESPONSE + path.slack
  }

  function Third(path: Path): Time {
    2 * (T3_RESPONSE + path.slack)
  }

  /** When B has given up its transaction and the last resend is still under way. */
  function End(path: Path): Time {
    if Third(path) < T3_DUPLICATED then T3_DUPLICATED else Third(path)
  }

  function Worlds(path: Path): seq<World> {
    var t2, t3, end := Second(path), Third(path), End(path);
    var a3 := Waits(path, t3, Some(t3 + T3_RESPONSE), 1, [0, t2, t3]);
    [World(Idle(path.aNode, 0), Idle(path.bNode, 0)),
     World(Waits(path, 0, None, 3, []), Idle(path.bNode, 0)),
     World(Waits(path, 0, Some(T3_RESPONSE), 3, [0]), Idle(path.bNode, 0)),
     World(Waits(path, 0, Some(T3_RESPONSE), 3, [0]), Holds(path, 0, 0)),
     World(Waits(path, t2, Some(T3_RESPONSE), 3, [0]), Holds(path, t2, 0)),
     World(Waits(path, t2, Some(t2 + T3_RESPONSE), 2, [0, t2]), Holds(path, t2, 0)),
     World(Waits(path, t3, Some(t2 + T3_RESPONSE), 2, [0, t2]), Holds(path, t3, 0)),
     World(a3, Holds(path, t3, 0)),
     World(a3.(now := end), Holds(path, end, 0)),
     World(a3.(now := end), Idle(path.bNode, end)),
     World(a3.(now := end), Holds(path, end, end))]
  }

  function Script(path: Path): seq<Move> {
    [AtA(EvCreate(path.aNode, KIND, 0, Buffer(0, []))), AtA(EvCommit(1)),
     AtB(EvReceive(path.bNode, KIND, SQN)), Pass(Second(path)), AtA(EvResponseTimeout(1)),
     Pass(Second(path)), AtA(EvResponseTimeout(1)), Pass(End(path) - Third(path)),
     AtB(EvHoldingTimeout(1)), AtB(EvReceive(path.bNode, KIND, SQN))]
  }

  lemma CopyUnderWay(path: Path, w: World, i: nat, times: seq<Time>)
    requires i < |times| && w.a.sent == SentAt(path, times) && w.b.now < times[i] + path.delay
    ensures InTransit(w, path, KIND, SQN)
  {
    assert w.a.sent[i] == Sending(times[i], path.aNode, Sent());
    assert IsCopyOf(w.a.sent[i], w.b.now, path, KIND, SQN);
  }

  lemma RunMoves(path: Path, i: nat)
    requires !DelayBounded(path) && i < 10
    ensures Moves(Worlds(path)[i], Script(path)[i], Worlds(path)[i + 1], path)
  {
    hide *;
    if i < 5 { EarlyMoves(path, i); } else { LateMoves(path, i); }
  }

  lemma EarlyMoves(path: Path, i: nat)
    requires !DelayBounded(path) && i < 5
    ensures Moves(Worlds(path)[i], Script(path)[i], Worlds(path)[i + 1], path)
  {
    hide Steps, InTransit, SentAt, Asking, Answering;
    var t2 := Second(path);
    match i
    case 0 => CreateStep(path);
    case 1 => CommitStep(path);
    case 2 => ReceiveStep(path, 0); CopyUnderWay(path, Worlds(path)[2], 0, [0]);
    case 3 => PassStep(path, 0, Some(T3_RESPONSE), 3, [0], t2);
    case 4 => ExpiryStep(path, t2, T3_RESPONSE, 3, [0]); assert [0] + [t2] == [0, t2];
  }

  lemma LateMoves(path: Path, i: nat)
    requires !DelayBounded(path) && 5 <= i < 10
    ensures Moves(Worlds(path)[i], Script(path)[i], Worlds(path)[i + 1], path)
  {
    hide Steps, InTransit, SentAt, Asking, Answering;
    var t2, t3, end := Second(path), Third(path), End(path);
    match i
    case 5 => PassStep(path, t2, Some(t2 + T3_RESPONSE), 2, [0, t2], t2);
    case 6 => ExpiryStep(path, t3, t2 + T3_RESPONSE, 2, [0, t2]); assert [0, t2] + [t3] == [0, t2, t3];
    case 7 => PassStep(path, t3, Some(t3 + T3_RESPONSE), 1, [0, t2, t3], end - t3);
    case 8 => HoldingStep(path, end);
    case 9 => ReceiveStep(path, end); CopyUnderWay(path, Worlds(path)[9], 2, [0, t2, t3]);
  }

  /** Time passes at both peers. */
  lemma PassStep(path: Path, now: Time, response: Option<Time>, count: nat, times: seq<Time>, d: Time)
    requires response.Some? && now + d <= response.value + path.slack
    ensures var a, b := Waits(path, now, response, count, times), Holds(path, now, 0);
      && Steps(a, EvAdvance(d), Waits(path, now + d, response, count, times)) && Prompt(a, EvAdvance(d), path.slack)
      && Steps(b, EvAdvance(d), Holds(path, now + d, 0))
  {
  }

  lemma RunIsExchange(path: Path)
    requires !DelayBounded(path)
    ensures Exchange(Worlds(path), Script(path), path, Request(1, KIND, 0))
  {
    hide Moves, Steps, Inv;
    var worlds, moves, req := Worlds(path), Script(path), Request(1, KIND, 0);
    forall i | 0 <= i < |moves|
      ensures Moves(worlds[i], moves[i], worlds[i + 1], path)
    {
      RunMoves(path, i);
    }
    IdleIsInitial(path.aNode);
    IdleIsInitial(path.bNode);
    assert Ready(worlds[0], path, req);
    forall i | 2 <= i < |moves|
      ensures Proper(worlds[i], moves[i], path, req)
    {
    }
  }

  lemma CounterexampleAccepts(path: Path)
    requires !DelayBounded(path)
    ensures TwiceAccepted(Worlds(path), Script(path), path, Request(1, KIND, 0))
  {
    hide Exchange, Receive;
    RunIsExchange(path);
    ReceiveStep(path, 0);
    ReceiveStep(path, End(path));
    var worlds, moves, req := Worlds(path), Script(path), Request(1, KIND, 0);
    assert Accepts(worlds, moves, path, req, 2);
    assert Accepts(worlds, moves, path, req, 9);
  }

  lemma NoFinal(path: Path)
    ensures !LateCopy(Script(path), path, Request(1, KIND, 0))
  {
  }
}
