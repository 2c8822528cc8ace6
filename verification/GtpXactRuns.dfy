/** Properties of whole runs of one peer. */
module GtpXactRuns {
  import opened Wrappers
  import opened GtpMessages
  import opened GtpXactModel
  import opened GtpXactInvariant
  import opened GtpXactSteps

  ghost predicate Run(states: seq<State>, events: seq<Event>) {
    && |states| == |events| + 1
    && forall i :: 0 <= i < |events| ==> Steps(states[i], events[i], states[i + 1])
  }

  lemma {:induction false} RunKeeps(states: seq<State>, events: seq<Event>, i: nat)
    requires Run(states, events) && Inv(states[0]) && i < |states|
    ensures Inv(states[i])
  {
    if i > 0 {
      RunKeeps(states, events, i - 1);
      StepKeeps(states[i - 1], events[i - 1], states[i]);
    }
  }

  // ---- how a step changes one transaction

  /** The transaction an event acts on. */
  function Target(s: State, e: Event): Option<Ref>
    requires Enabled(s, e)
  {
    match e
    case EvAnswer(r, _, _, _) => Some(r)
    case EvCommit(r) => Some(r)
    case EvResponseTimeout(r) => Some(r)
    case EvHoldingTimeout(r) => Some(r)
    case EvReceive(node, kind, sqn) => Found(s, node, kind, SqnToXid(sqn))
    case _ => None
  }

  /** No step changes a transaction it does not act on, except its partner; only delete_all removes it. */
  lemma OthersKept(s: State, e: Event, t: State, r: Ref)
    requires Inv(s) && Steps(s, e, t) && r in s.xacts && Target(s, e) != Some(r)
    ensures r in t.xacts ==> SameButPartner(t.xacts[r], s.xacts[r])
    ensures r !in t.xacts ==> e == EvDeleteAll(s.xacts[r].node)
  {
    hide XactOk, PacketsOk, IdsOk, ListsOk, Matched, RemoteUnique, SentOk, SlotsOk;
    match e
    case EvCreate(node, kind, teid, buffer) =>
      var x := LocalCreateShape(s, node, kind, teid, buffer);
      assert s.free[0] in s.free;
    case EvAnswer(q, kind, teid, buffer) =>
    case EvCommit(q) => CommitFrame(s, q);
    case EvReceive(node, kind, sqn) =>
      if Found(s, node, kind, SqnToXid(sqn)).None? {
        assert s.free[0] in s.free;
      }
    case EvResponseTimeout(q) => ResponseTimeoutFrame(s, q);
    case EvHoldingTimeout(q) => HoldingTimeoutKeeps(s, q); DeleteShape(s, q);
    case EvLink(a, b) =>
    case EvUnlink(a, b) =>
    case EvDeleteAll(node) =>
      DeleteAllKeeps(s, node);
      DeleteAllFrame(s, node);
    case EvAdvance(_) =>
  }

  lemma CommitFrame(s: State, q: Ref)
    requires Inv(s) && LiveRef(s, q) && Commit(s, q).Done?
    ensures var t := Commit(s, q).value;
      forall r :: r in s.xacts && r != q ==> r in t.xacts && SameButPartner(t.xacts[r], s.xacts[r])
  {
    hide XactOk, PoolOk, PacketsOk, IdsOk, ListsOk, Matched, RemoteUnique, SentOk, SlotsOk;
    DeleteKeeps(s, q);
    DeleteShape(s, q);
  }

  lemma ResponseTimeoutFrame(s: State, q: Ref)
    requires Inv(s) && LiveRef(s, q) && ResponseTimeout(s, q).Done?
    ensures var t := ResponseTimeout(s, q).value;
      forall r :: r in s.xacts && r != q ==> r in t.xacts && SameButPartner(t.xacts[r], s.xacts[r])
  {
    hide XactOk, PoolOk, PacketsOk, IdsOk, ListsOk, Matched, RemoteUnique, SentOk, SlotsOk;
    DeleteKeeps(s, q);
    DeleteShape(s, q);
  }

  lemma DeleteAllFrame(s: State, node: NodeId)
    requires node in s.nodes && DeleteAll(s, node).Done?
    ensures var t := DeleteAll(s, node).value;
      t.nodes.Keys == s.nodes.Keys && t.xacts.Keys <= s.xacts.Keys
      && forall r :: r in t.xacts ==> SameButPartner(t.xacts[r], s.xacts[r])
  {
    DeleteEachFrame(s, s.nodes[node].local);
    var s1 := DeleteEach(s, s.nodes[node].local).value;
    DeleteEachFrame(s1, s1.nodes[node].remote);
  }

  /** A transaction born in a step is at step 1, on a slot that was free. */
  lemma NewcomersFresh(s: State, e: Event, t: State, r: Ref)
    requires Inv(s) && Steps(s, e, t) && r !in s.xacts && r in t.xacts
    ensures e.EvCreate? || e.EvReceive?
    ensures r in s.free && t.xacts[r].step == 1 && t.xacts[r].responseCount == T3_RESPONSE_RETRIES
    ensures t.xacts[r].response.None?
    ensures e.EvCreate? ==>
      t.xacts[r].org.Local? && t.xacts[r].node == e.node && t.xacts[r].xid == NextId(s.lastId)
    ensures e.EvReceive? ==>
      && t.xacts[r].org.Remote? && t.xacts[r].node == e.node && t.xacts[r].xid == SqnToXid(e.sqn)
      && Found(s, e.node, e.kind, SqnToXid(e.sqn)).None?
  {
    hide XactOk, PacketsOk, IdsOk, ListsOk, Matched, RemoteUnique, SentOk, SlotsOk;
    match e
    case EvCreate(node, kind, teid, buffer) =>
      var x := LocalCreateShape(s, node, kind, teid, buffer);
      assert s.free[0] in s.free;
    case EvReceive(node, kind, sqn) =>
      if Found(s, node, kind, SqnToXid(sqn)).None? {
        ReceiveCreatesInitial(s, node, kind, sqn);
        assert s.free[0] in s.free;
      }
    case EvCommit(q) => CommitFrame(s, q); CommitNoNew(s, q);
    case EvResponseTimeout(q) => DeleteKeeps(s, q); DeleteShape(s, q);
    case EvHoldingTimeout(q) => HoldingTimeoutKeeps(s, q); DeleteShape(s, q);
    case EvDeleteAll(node) => DeleteAllFrame(s, node);
    case _ =>
  }

  lemma CommitNoNew(s: State, q: Ref)
    requires Inv(s) && LiveRef(s, q) && Commit(s, q).Done?
    ensures Commit(s, q).value.xacts.Keys <= s.xacts.Keys
  {
    hide XactOk, PoolOk, PacketsOk, IdsOk, ListsOk, Matched, RemoteUnique, SentOk, SlotsOk;
    DeleteKeeps(s, q);
    DeleteShape(s, q);
  }

  // ---- the history is written once

  /** `y` is `x` later on: same transaction, and what was recorded stays recorded. */
  predicate Continues(x: Xact, y: Xact) {
    && SamePlace(x, y) && x.step <= y.step
    && y.responseCount <= x.responseCount
    && forall i :: 0 <= i < 3 && i < x.step ==> y.slots[i] == x.slots[i]
  }

  lemma StepContinues(s: State, e: Event, t: State, r: Ref)
    requires Inv(s) && Steps(s, e, t) && r in s.xacts && r in t.xacts
    ensures Continues(s.xacts[r], t.xacts[r])
    ensures t.xacts[r].responseCount ==
      s.xacts[r].responseCount - (if e == EvResponseTimeout(r) then 1 else 0)
  {
    hide PacketsOk, IdsOk, Matched, RemoteUnique, SentOk, PoolOk, ListsOk, XactOk;
    if Target(s, e) != Some(r) {
      OthersKept(s, e, t, r);
    } else if e == EvResponseTimeout(r) {
      TimeoutContinues(s, t, r);
    } else {
      match e
      case EvAnswer(q, kind, teid, buffer) => AnswerContinues(s, r, kind, teid, buffer);
      case EvCommit(q) => CommitSendsStored(s, r);
      case EvReceive(node, kind, sqn) => ReceiveContinues(s, node, kind, sqn);
      case EvHoldingTimeout(q) => HoldingTimeoutKeeps(s, r); DeleteShape(s, r);
    }
  }

  lemma AnswerContinues(s: State, r: Ref, kind: Kind, teid: nat, buffer: Buffer)
    requires r in s.xacts && XactOk(s.xacts[r]) && Answer(s, r, kind, teid, buffer).Done?
    ensures var t := Answer(s, r, kind, teid, buffer).value;
      Continues(s.xacts[r], t.xacts[r]) && t.xacts[r].responseCount == s.xacts[r].responseCount
  {
    AnswerShape(s, r, kind, teid, buffer);
  }

  lemma TimeoutContinues(s: State, t: State, r: Ref)
    requires Inv(s) && Steps(s, EvResponseTimeout(r), t) && r in t.xacts
    ensures Continues(s.xacts[r], t.xacts[r]) && t.xacts[r].responseCount == s.xacts[r].responseCount - 1
  {
    hide PacketsOk, IdsOk, Matched, RemoteUnique, SentOk, PoolOk, ListsOk;
    assert XactOk(s.xacts[r]);
    ResponseTimeoutShape(s, r);
    DeleteKeeps(s, r);
    DeleteShape(s, r);
  }

  /** A message taken in by a waiting transaction stops the response timer and fills one slot. */
  lemma ReceiveContinues(s: State, node: NodeId, kind: Kind, sqn: Sqn)
    requires Inv(s) && node in s.nodes && Receive(s, node, kind, sqn).Done?
    requires Found(s, node, kind, SqnToXid(sqn)).Some?
    ensures var r := Found(s, node, kind, SqnToXid(sqn)).value;
      var received := Receive(s, node, kind, sqn).value;
      var x := s.xacts[r];
      r in received.state.xacts && received.xact == (if received.status.Ok? then Some(r) else None)
      && var y := received.state.xacts[r];
         && SamePlace(x, y) && y.partner == x.partner && y.responseCount == x.responseCount
         && (received.status.Ok? ==>
               x.step < 3 && y.step == x.step + 1 && y.slots == x.slots[x.step := Slot(kind, None)] && y.response.None?)
         && (received.status.Retry? ==> y == x.(holding := y.holding))
         && (y.holding == x.holding || y.holding == Some(s.now + T3_DUPLICATED))
  {
    hide PoolOk, ListsOk, Matched, RemoteUnique, PacketsOk, IdsOk, SentOk, XactOk;
  }

  /** Along a run through which `r` stays live, every filled slot keeps its first content and
      the steps only go up: each slot is written at most once. */
  lemma {:induction false} SlotsWrittenOnce(states: seq<State>, events: seq<Event>, r: Ref, i: nat, j: nat)
    requires Run(states, events) && Inv(states[0]) && i <= j < |states|
    requires forall k :: i <= k <= j ==> r in states[k].xacts
    ensures Continues(states[i].xacts[r], states[j].xacts[r])
    decreases j
  {
    hide Inv, Steps;
    if i < j {
      SlotsWrittenOnce(states, events, r, i, j - 1);
      RunKeeps(states, events, j - 1);
      StepContinues(states[j - 1], events[j - 1], states[j], r);
    }
  }

  // ---- retransmission

  function Timeouts(events: seq<Event>, r: Ref): nat {
    if events == [] then 0
    else Timeouts(events[..|events| - 1], r) + if events[|events| - 1] == EvResponseTimeout(r) then 1 else 0
  }

  /** While `r` lives its response timer expires once for each retry used up. */
  lemma {:induction false} TimeoutsCounted(states: seq<State>, events: seq<Event>, r: Ref)
    requires Run(states, events) && Inv(states[0]) && forall k :: 0 <= k < |states| ==> r in states[k].xacts
    ensures Timeouts(events, r) == states[0].xacts[r].responseCount - states[|events|].xacts[r].responseCount
    decreases |events|
  {
    hide Inv, Steps;
    if events != [] {
      var n := |events| - 1;
      TimeoutsCounted(states[..n + 1], events[..n], r);
      RunKeeps(states, events, n);
      StepContinues(states[n], events[n], states[n + 1], r);
    }
  }

  /** A transaction sees at most two timer-driven resends while it lives; a third expiry deletes it. */
  lemma AtMostTwoResends(states: seq<State>, events: seq<Event>, r: Ref)
    requires Run(states, events) && Inv(states[0]) && forall k :: 0 <= k < |states| ==> r in states[k].xacts
    ensures Timeouts(events, r) <= T3_RESPONSE_RETRIES - 1
    ensures forall t :: Timeouts(events, r) == T3_RESPONSE_RETRIES - 1 && Steps(states[|events|], EvResponseTimeout(r), t)
              ==> r !in t.xacts
  {
    hide PoolOk, ListsOk, Matched, RemoteUnique, PacketsOk, IdsOk, SentOk;
    var n := |events|;
    TimeoutsCounted(states, events, r);
    RunKeeps(states, events, n);
    assert XactOk(states[0].xacts[r]) && XactOk(states[n].xacts[r]);
    forall t | Timeouts(events, r) == T3_RESPONSE_RETRIES - 1 && Steps(states[n], EvResponseTimeout(r), t)
      ensures r !in t.xacts
    {
      ResponseTimeoutShape(states[n], r);
      DeleteKeeps(states[n], r);
      DeleteShape(states[n], r);
    }
  }

  /** What is sent is the packet stored at an own step of `r`: the step just completed, unless a
      repeated message asks for the answer it was given. */
  predicate ResendsSlot(s: State, e: Event, r: Ref, i: nat, sending: Sending)
    requires Enabled(s, e)
  {
    && Target(s, e) == Some(r) && Holds(s, r, i) && OwnStep(s.xacts[r].org, i)
    && (i == if e.EvReceive? then if s.xacts[r].org.Local? then 2 else 1 else s.xacts[r].step - 1)
    && sending == Sending(s.now, s.xacts[r].node, s.xacts[r].slots[i].packet.value)
  }

  ghost predicate SendsStored(s: State, e: Event, t: State)
    requires Enabled(s, e)
  {
    t.sent == s.sent || exists r, i, sending :: ResendsSlot(s, e, r, i, sending) && t.sent == s.sent + [sending]
  }

  /** A step sends at most one packet, one that is stored in the history of the transaction it acts on. */
  lemma SendsAreStored(s: State, e: Event, t: State)
    requires Inv(s) && Steps(s, e, t)
    ensures SendsStored(s, e, t)
  {
    hide PoolOk, ListsOk, Matched, RemoteUnique, PacketsOk, IdsOk, SentOk, XactOk, SlotsOk;
    match e
    case EvCreate(node, kind, teid, buffer) => var x := LocalCreateShape(s, node, kind, teid, buffer);
    case EvCommit(r) => CommitSends(s, r, t);
    case EvReceive(node, kind, sqn) => ReceiveSends(s, node, kind, sqn, t);
    case EvResponseTimeout(r) => ResponseTimeoutSends(s, r, t);
    case EvHoldingTimeout(r) => HoldingTimeoutKeeps(s, r); DeleteShape(s, r);
    case EvDeleteAll(node) => DeleteAllSendsNothing(s, node);
    case _ =>
  }

  lemma CommitSends(s: State, r: Ref, t: State)
    requires Inv(s) && Steps(s, EvCommit(r), t)
    ensures SendsStored(s, EvCommit(r), t)
  {
    hide PoolOk, ListsOk, Matched, RemoteUnique, PacketsOk, IdsOk, SentOk, Commit;
    CommitSendsStored(s, r);
    var x := s.xacts[r];
    assert XactOk(x);
    if OwnStep(x.org, x.step - 1) {
      var sending := Sending(s.now, x.node, x.slots[x.step - 1].packet.value);
      assert ResendsSlot(s, EvCommit(r), r, x.step - 1, sending);
    }
  }

  lemma ReceiveSends(s: State, node: NodeId, kind: Kind, sqn: Sqn, t: State)
    requires Inv(s) && Steps(s, EvReceive(node, kind, sqn), t)
    ensures SendsStored(s, EvReceive(node, kind, sqn), t)
  {
    hide PoolOk, ListsOk, Matched, RemoteUnique, PacketsOk, IdsOk, SentOk, XactOk, SlotsOk;
    if Receive(s, node, kind, sqn).value.status.Retry? {
      RetryChangesNothing(s, node, kind, sqn);
      var r := Found(s, node, kind, SqnToXid(sqn)).value;
      FoundIs(s, node, kind, SqnToXid(sqn));
      var i: nat := if s.xacts[r].org.Local? then 2 else 1;
      if s.xacts[r].slots[i].packet.Some? {
        var sending := Sending(s.now, node, s.xacts[r].slots[i].packet.value);
        assert ResendsSlot(s, EvReceive(node, kind, sqn), r, i, sending);
      }
    }
  }

  lemma ResponseTimeoutSends(s: State, r: Ref, t: State)
    requires Inv(s) && Steps(s, EvResponseTimeout(r), t)
    ensures SendsStored(s, EvResponseTimeout(r), t)
  {
    hide PoolOk, ListsOk, Matched, RemoteUnique, PacketsOk, IdsOk, SentOk;
    var x := s.xacts[r];
    assert XactOk(x);
    ResponseTimeoutShape(s, r);
    if x.responseCount == 1 {
      DeleteKeeps(s, r);
      DeleteShape(s, r);
    } else {
      var sending := Sending(s.now, x.node, x.slots[x.step - 1].packet.value);
      assert ResendsSlot(s, EvResponseTimeout(r), r, x.step - 1, sending);
    }
  }

  lemma DeleteEachSendsNothing(s: State, refs: seq<Ref>)
    requires DeleteEach(s, refs).Done?
    ensures var t := DeleteEach(s, refs).value;
      t.sent == s.sent && t.now == s.now && t.lastId == s.lastId && t.created == s.created && t.given == s.given
    decreases |refs|
  {
    if refs != [] {
      DeleteShape(s, refs[0]);
      DeleteEachSendsNothing(Delete(s, refs[0]).value, refs[1..]);
    }
  }

  lemma DeleteAllSendsNothing(s: State, node: NodeId)
    requires node in s.nodes && DeleteAll(s, node).Done?
    ensures var t := DeleteAll(s, node).value;
      t.sent == s.sent && t.now == s.now && t.lastId == s.lastId && t.created == s.created && t.given == s.given
  {
    DeleteEachSendsNothing(s, s.nodes[node].local);
    var s1 := DeleteEach(s, s.nodes[node].local).value;
    DeleteEachSendsNothing(s1, s1.nodes[node].remote);
  }

  // ---- giving up

  /** No input: time passes, and timers fire. */
  predicate Quiet(e: Event) {
    e.EvAdvance? || e.EvResponseTimeout? || e.EvHoldingTimeout?
  }

  /** Timers fire at most `slack` late: time does not pass an armed deadline by more. */
  ghost predicate Prompt(s: State, e: Event, slack: Time) {
    e.EvAdvance? ==>
      forall r :: r in s.xacts && s.xacts[r].response.Some? ==> s.now + e.delay <= s.xacts[r].response.value + slack
  }

  /** The latest moment at which a transaction with an armed response timer can still be there. */
  function GiveUpBy(x: Xact, slack: Time): Time
    requires x.response.Some? && x.responseCount >= 1
  {
    x.response.value + slack + (x.responseCount - 1) * (T3_RESPONSE + slack)
  }

  predicate Waiting(s: State, r: Ref, slack: Time, bound: Time) {
    r in s.xacts ==>
      var x := s.xacts[r];
      x.response.Some? && x.responseCount >= 1 && s.now <= x.response.value + slack && GiveUpBy(x, slack) <= bound
  }

  /** Rearming uses up a retry, so the last moment does not move. */
  lemma RearmingKeepsBound(x: Xact, now: Time, slack: Time)
    requires x.response.Some? && x.responseCount > 1 && now <= x.response.value + slack
    ensures GiveUpBy(Rearmed(x, now), slack) <= GiveUpBy(x, slack)
  {
    assert (x.responseCount - 1) * (T3_RESPONSE + slack) == (x.responseCount - 2) * (T3_RESPONSE + slack) + (T3_RESPONSE + slack);
  }

  lemma QuietStepWaits(s: State, e: Event, t: State, r: Ref, slack: Time, bound: Time)
    requires Inv(s) && Steps(s, e, t) && Quiet(e) && Prompt(s, e, slack) && Waiting(s, r, slack, bound)
    ensures Waiting(t, r, slack, bound) && (r !in s.xacts ==> r !in t.xacts)
  {
    hide PoolOk, ListsOk, Matched, RemoteUnique, PacketsOk, IdsOk, SentOk, XactOk, GiveUpBy;
    if r !in s.xacts {
      if r in t.xacts { NewcomersFresh(s, e, t, r); }
    } else if e == EvResponseTimeout(r) {
      ExpiryWaits(s, t, r, slack, bound);
    } else if e == EvHoldingTimeout(r) {
      HoldingTimeoutKeeps(s, r);
      DeleteShape(s, r);
    } else {
      OthersKept(s, e, t, r);
      QuietTime(s, e, t);
      PartnerKeepsBound(s.xacts[r], t.xacts[r], slack);
    }
  }

  lemma PartnerKeepsBound(x: Xact, y: Xact, slack: Time)
    requires x.response.Some? && x.responseCount >= 1 && SameButPartner(y, x)
    ensures GiveUpBy(y, slack) == GiveUpBy(x, slack)
  {
  }

  lemma ExpiryWaits(s: State, t: State, r: Ref, slack: Time, bound: Time)
    requires Inv(s) && Steps(s, EvResponseTimeout(r), t) && Waiting(s, r, slack, bound)
    ensures Waiting(t, r, slack, bound)
  {
    hide PoolOk, ListsOk, Matched, RemoteUnique, PacketsOk, IdsOk, SentOk, GiveUpBy;
    var x := s.xacts[r];
    assert XactOk(x);
    ResponseTimeoutShape(s, r);
    if x.responseCount == 1 {
      DeleteKeeps(s, r);
      DeleteShape(s, r);
    } else {
      RearmingKeepsBound(x, s.now, slack);
    }
  }

  lemma QuietTime(s: State, e: Event, t: State)
    requires Inv(s) && Steps(s, e, t) && Quiet(e)
    ensures t.now == s.now + (if e.EvAdvance? then e.delay else 0)
  {
    hide PoolOk, ListsOk, Matched, RemoteUnique, PacketsOk, IdsOk, SentOk, XactOk;
    match e
    case EvResponseTimeout(r) => DeleteKeeps(s, r); DeleteShape(s, r);
    case EvHoldingTimeout(r) => HoldingTimeoutKeeps(s, r); DeleteShape(s, r);
    case EvAdvance(_) =>
  }

  /** With no further input, a transaction that waits for an answer is gone for good by its
      third expiry. */
  lemma {:induction false} GivesUp(states: seq<State>, events: seq<Event>, r: Ref, slack: Time, i: nat)
    requires Run(states, events) && Inv(states[0]) && i < |states|
    requires forall k :: 0 <= k < |events| ==> Quiet(events[k]) && Prompt(states[k], events[k], slack)
    requires r in states[0].xacts && states[0].xacts[r].response.Some?
    requires states[0].now <= states[0].xacts[r].response.value + slack
    requires states[0].xacts[r].responseCount >= 1
    ensures Waiting(states[i], r, slack, GiveUpBy(states[0].xacts[r], slack))
    ensures states[i].now > GiveUpBy(states[0].xacts[r], slack) ==> r !in states[i].xacts
  {
    hide Inv, Steps, Prompt;
    if i > 0 {
      GivesUp(states, events, r, slack, i - 1);
      RunKeeps(states, events, i - 1);
      QuietStepWaits(states[i - 1], events[i - 1], states[i], r, slack, GiveUpBy(states[0].xacts[r], slack));
    }
    if r in states[i].xacts {
      var x := states[i].xacts[r];
      assert (x.responseCount - 1) * (T3_RESPONSE + slack) >= 0;
    }
  }

  /** Committing a new request starts the countdown: three response times, and the slack, later it is gone. */
  lemma CommittedRequestGivesUp(states: seq<State>, events: seq<Event>, r: Ref, slack: Time, i: nat)
    requires Run(states, events) && Inv(states[0]) && 1 <= i < |states|
    requires LiveRef(states[0], r) && states[0].xacts[r].org.Local? && states[0].xacts[r].step == 1
    requires states[0].xacts[r].responseCount == T3_RESPONSE_RETRIES && events[0] == EvCommit(r)
    requires forall k :: 1 <= k < |events| ==> Quiet(events[k]) && Prompt(states[k], events[k], slack)
    requires states[i].now > states[0].now + T3_RESPONSE_RETRIES * (T3_RESPONSE + slack)
    ensures r !in states[i].xacts
  {
    hide PoolOk, ListsOk, Matched, RemoteUnique, PacketsOk, IdsOk, SentOk, XactOk;
    var s := states[0];
    assert Steps(s, events[0], states[1]);
    CommitSendsStored(s, r);
    CommitTime(s, r);
    assert XactOk(s.xacts[r]);
    RequestIsOwnStep(s.xacts[r]);
    RunKeeps(states, events, 1);
    assert Run(states[1..], events[1..]);
    GivesUp(states[1..], events[1..], r, slack, i - 1);
  }

  lemma RequestIsOwnStep(x: Xact)
    requires XactOk(x) && x.org.Local? && x.step == 1
    ensures OwnStep(x.org, x.step - 1)
  {
  }

  lemma CommitTime(s: State, r: Ref)
    requires Inv(s) && LiveRef(s, r) && Commit(s, r).Done?
    ensures Commit(s, r).value.now == s.now
  {
    hide PoolOk, ListsOk, Matched, RemoteUnique, PacketsOk, IdsOk, SentOk, XactOk;
    DeleteKeeps(s, r);
    DeleteShape(s, r);
  }
}
