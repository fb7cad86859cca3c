/** What is reported to the user, and what EPOLLONESHOT promises. */
module PortReports {
  import opened PollEvents
  import opened PollGroups
  import opened Sequences
  import opened PortModel
  import opened PortInvariants
  import opened PortRuns

  /** Socket states that remain keep their masks. */
  ghost predicate MasksKept(w: World, w': World) {
    forall b | b in w'.socks ::
      b in w.socks && w'.socks[b].userEvents == w.socks[b].userEvents && w'.socks[b].userData == w.socks[b].userData
  }

  lemma {:induction false} RetireMasks(w: World, a: Addr, cancelled: bool)
    requires a in w.socks
    ensures MasksKept(w, Retire(w, a, cancelled))
  {
    hide Without, Dequeued;
    DequeuedQueues(w, a);
  }

  lemma {:induction false} FreeMasks(w: World, a: Addr)
    requires a in w.socks
    ensures MasksKept(w, FreeSock(w, a))
  {
    hide Without, Releasable, Release, Dequeued;
    DequeuedQueues(w, a);
  }

  lemma {:induction false} DeleteMasks(w: World, a: Addr, force: bool, cancelled: bool)
    requires a in w.socks
    ensures MasksKept(w, DeleteSock(w, a, force, cancelled))
  {
    hide Retire, FreeSock;
    FreeMasks(w, a);
    RetireMasks(w, a, cancelled);
    FreeMasks(Retire(w, a, cancelled), a);
  }

  lemma {:induction false} UpdateSockMasks(w: World, a: Addr, answer: Answer)
    requires a in w.socks
    ensures MasksKept(w, UpdateSock(w, a, answer).0)
  {
    hide DeleteSock, Uncovered, Dequeued, Submit, CancelPoll;
    DeleteMasks(w, a, false, answer.cancelled);
    RequestMasks(w, a);
  }

  lemma {:induction false} RequestMasks(w: World, a: Addr)
    requires a in w.socks
    ensures MasksKept(w, CancelPoll(w, a, true)) && MasksKept(w, Submit(w, a))
  {
    hide ToAfd;
  }

  lemma {:induction false} UpdateAllMasks(w: World, answers: seq<Answer>)
    requires Inv(w) && |w.updateQ| <= |answers|
    ensures MasksKept(w, UpdateAll(w, answers).0)
    decreases |w.updateQ|
  {
    hide Core, Flight, Interest, UpdateSock, Without;
    if w.updateQ != [] {
      var a := w.updateQ[0];
      QueuedMember(w, a);
      UpdateSockInv(w, a, answers[0]);
      UpdateSockMasks(w, a, answers[0]);
      var (next, ok) := UpdateSock(w, a, answers[0]);
      if ok {
        UpdateDequeues(w, a, answers[0]);
        WithoutMembers(w.updateQ, a);
        UpdateAllMasks(next, answers[1..]);
      }
    }
  }

  // ----- one completion

  /** A report carries only events the user asked for, and the user's own data. */
  ghost predicate Wanted(w: World, r: Report) {
    r.addr in w.socks && r.events != 0 && r.events & !w.socks[r.addr].userEvents == 0 &&
      r.data == w.socks[r.addr].userData
  }

  lemma {:induction false} Masked(raw: bv32, wanted: bv32)
    ensures Filtered(raw, wanted) & !wanted == 0
    ensures wanted == 0 ==> Filtered(raw, wanted) == 0
  {
  }

  /** What one delivery may report about the socket state `a`, and what it leaves behind. */
  ghost predicate Delivered(w: World, w': World, a: Addr, r: Option<Report>) {
    && (forall b | b in w'.socks && b != a :: b in w.socks && w'.socks[b] == w.socks[b])
    && (r.Some? ==> r.value.addr == a && Wanted(w, r.value))
    && (a in w'.socks ==> a in w.socks && w'.socks[a].userData == w.socks[a].userData)
    && (a in w'.socks ==>
       w'.socks[a].userEvents == if r.Some? && IsOneShot(w.socks[a].userEvents) then 0 else w.socks[a].userEvents)
  }

  lemma {:induction false} DeliverReport(w: World, a: Addr, raw: bv32)
    requires a in w.socks
    ensures Delivered(w, Deliver(w, a, raw).0, a, Deliver(w, a, raw).1)
  {
    Masked(raw, w.socks[a].userEvents);
  }

  /** Only fields that have nothing to do with reporting differ between `w` and `w1`. */
  lemma {:induction false} DeliveredSame(w: World, w1: World, w': World, a: Addr, r: Option<Report>, s: Sock)
    requires a in w.socks && w1.socks == w.socks[a := s] && s.userEvents == w.socks[a].userEvents &&
      s.userData == w.socks[a].userData
    requires Delivered(w1, w', a, r)
    ensures Delivered(w, w', a, r)
  {
  }

  lemma {:induction false} DeleteDelivered(w: World, a: Addr)
    requires Core(w) && a in w.socks
    ensures Delivered(w, DeleteSock(w, a, false, false), a, None)
  {
    hide Core, DeleteSock;
    DeleteMasks(w, a, false, false);
    DeleteOthers(w, a);
  }

  lemma {:induction false} FeedReport(w: World, c: Completion)
    requires Inv(w) && c.addr in w.inFlight
    ensures Delivered(w, FeedEvent(w, c).0, c.addr, FeedEvent(w, c).1)
  {
    hide Core, DeleteSock, RawEvents, Interest, Flight, RequestUpdate, Deliver, Delivered;
    var a := c.addr;
    CompletedInv(w, a);
    var w1 := Completed(w, a);
    DeleteDelivered(w1, a);
    DeliveredSame(w, w1, FeedEvent(w, c).0, a, FeedEvent(w, c).1, w1.socks[a]) by {
      if !w1.socks[a].deletePending {
        RequestCore(w1, a);
        DeliverReport(RequestUpdate(w1, a), a, RawEvents(c.outcome));
        DeliveredSame(w1, RequestUpdate(w1, a), Deliver(RequestUpdate(w1, a), a, RawEvents(c.outcome)).0, a,
                      Deliver(RequestUpdate(w1, a), a, RawEvents(c.outcome)).1, w1.socks[a]);
      }
    }
  }

  lemma {:induction false} DeleteOthers(w: World, a: Addr)
    requires Core(w) && a in w.socks
    ensures forall b | b in DeleteSock(w, a, false, false).socks && b != a ::
      b in w.socks && DeleteSock(w, a, false, false).socks[b] == w.socks[b]
  {
    hide Core, DeleteSock;
    DeleteCore(w, a, false, false);
    var w2 := DeleteSock(w, a, false, false);
    forall b | b in w2.socks && b != a
      ensures b in w.socks && w2.socks[b] == w.socks[b]
    {
      assert b in w2.socks - {a};
    }
  }

  // ----- a batch of completions

  /** What a batch may report, and what it leaves behind. */
  ghost predicate DeliveredAll(w: World, w': World, addrs: set<Addr>, rs: seq<Report>) {
    && (forall b | b in w'.socks :: b in w.socks && w'.socks[b].userData == w.socks[b].userData)
    && (forall b | b in w'.socks :: w'.socks[b].userEvents == w.socks[b].userEvents || w'.socks[b].userEvents == 0)
    && (forall b | b in w'.socks && b !in addrs :: w'.socks[b] == w.socks[b])
    && (forall r | r in rs :: r.addr in addrs && Wanted(w, r))
    && (forall r | r in rs && IsOneShot(w.socks[r.addr].userEvents) && r.addr in w'.socks ::
       w'.socks[r.addr].userEvents == 0)
  }

  lemma {:induction false} DeliveredStep(w: World, w1: World, w2: World, a: Addr, r: Option<Report>, addrs: set<Addr>,
      rs: seq<Report>)
    requires Delivered(w, w1, a, r) && DeliveredAll(w1, w2, addrs, rs) && a !in addrs
    ensures DeliveredAll(w, w2, {a} + addrs, (if r.Some? then [r.value] else []) + rs)
  {
    forall x | x in rs
      ensures Wanted(w, x) && x.addr != a
    {
    }
  }

  /** Each completion yields at most one report, for its own socket, with events the user asked for;
      after a report to a one-shot registration that registration asks for nothing. */
  lemma {:induction false} FeedAllReports(w: World, cs: seq<Completion>)
    requires Inv(w) && Distinct(cs) && AllInFlight(w, cs)
    ensures |FeedAll(w, cs).1| <= |cs| && DeliveredAll(w, FeedAll(w, cs).0, Addrs(cs), FeedAll(w, cs).1)
    decreases |cs|
  {
    hide Inv, FeedEvent, DeliveredAll, Delivered, Addrs;
    if cs != [] {
      FeedEventInv(w, cs[0]);
      FeedReport(w, cs[0]);
      var (w1, r) := FeedEvent(w, cs[0]);
      FeedAllReports(w1, cs[1..]);
      AddrsStep(cs);
      OwnAddr(cs);
      DeliveredStep(w, w1, FeedAll(w, cs).0, cs[0].addr, r, Addrs(cs[1..]), FeedAll(w1, cs[1..]).1);
    } else {
      NothingDelivered(w);
    }
  }

  lemma {:induction false} NothingDelivered(w: World)
    ensures DeliveredAll(w, w, Addrs([]), [])
  {
  }

  lemma {:induction false} OwnAddr(cs: seq<Completion>)
    requires cs != [] && Distinct(cs)
    ensures cs[0].addr !in Addrs(cs[1..])
  {
  }

  // ----- whole operations

  /** Every report of an operation carries only events that were asked for, and there are no more than completions. */
  lemma {:induction false} PerformReports(w: World, op: Operation)
    requires Inv(w) && Possible(w, op)
    ensures |Perform(w, op).1| <= |Completions(op)|
    ensures forall r | r in Perform(w, op).1 :: r.addr in Addrs(Completions(op)) && Wanted(w, r)
  {
    hide Inv, FeedAll, UpdateAll, UpdateIfPolling, NewSock, SetEvent, DeleteSock, Addrs, Wanted;
    if op.PollEnd? && op.dequeued {
      var w1 := w.(polls := w.polls - 1);
      InvIgnores(w, w1);
      FeedAllReports(w1, op.completions);
      WantedIgnores(w);
    }
  }

  lemma {:induction false} WantedIgnores(w: World)
    ensures forall r, n :: Wanted(w.(polls := n), r) == Wanted(w, r)
  {
  }

  /** The operation gives the socket state `a` a new mask. */
  predicate Asks(w: World, op: Operation, a: Addr) {
    (op.Modify? && op.socket in w.tree && w.tree[op.socket] == a) || (op.Add? && op.supply.sock == Some(a))
  }

  ghost predicate Silent(w: World, a: Addr) {
    a in w.socks ==> w.socks[a].userEvents == 0
  }

  lemma {:induction false} SetEventOthers(w: World, x: Addr, events: bv32, data: int, a: Addr)
    requires a != x
    ensures var w' := SetEvent(w, x, events, data);
            a in w'.socks ==> a in w.socks && w'.socks[a] == w.socks[a]
  {
    hide Uncovered;
  }

  lemma {:induction false} UpdateSilent(w: World, answers: seq<Answer>, a: Addr)
    requires Inv(w) && |w.updateQ| <= |answers| && Silent(w, a)
    ensures Silent(UpdateAll(w, answers).0, a) && Silent(UpdateIfPolling(w, answers), a)
  {
    hide Inv, UpdateAll;
    UpdateAllMasks(w, answers);
  }

  lemma {:induction false} SilentAdd(w: World, op: Operation, a: Addr)
    requires Inv(w) && Possible(w, op) && !AddAfterClose(w, op) && op.Add? && op.supply.sock != Some(a) && Silent(w, a)
    ensures Silent(Perform(w, op).0, a)
  {
    hide Inv, InvExcept, SetEvent, UpdateIfPolling, NewSock, HandleGone;
    NewSockInv(w, op.socket, op.supply);
    NewSockOthers(w, op.socket, op.supply);
    var (w1, x) := NewSock(w, op.socket, op.supply);
    if x.Some? {
      SetEventNew(w1, x.value, op.events, op.data);
      SetEventKeeps(w1, x.value, op.events, op.data);
      SetEventOthers(w1, x.value, op.events, op.data, a);
      UpdateSilent(SetEvent(w1, x.value, op.events, op.data), op.answers, a);
    }
  }

  lemma {:induction false} NewSockOthers(w: World, socket: Socket, supply: Supply)
    ensures var (w', x) := NewSock(w, socket, supply);
      && (x.None? ==> w'.socks == w.socks)
      && (x.Some? ==> x == supply.sock && w'.socks - {x.value} == w.socks - {x.value})
      && forall a | supply.sock != Some(a) && a in w'.socks :: a in w.socks && w'.socks[a] == w.socks[a]
  {
    hide Acquire, Release, Releasable, NeedsNew;
  }

  lemma {:induction false} SilentReports(w: World, op: Operation, a: Addr)
    requires Inv(w) && Possible(w, op) && Silent(w, a)
    ensures forall r | r in Perform(w, op).1 :: r.addr != a
  {
    hide Inv, Possible, Perform, Addrs;
    PerformReports(w, op);
  }

  lemma {:induction false} SilentModify(w: World, op: Operation, a: Addr)
    requires Inv(w) && Possible(w, op) && op.Modify? && op.socket in w.tree && Silent(w, a) && w.tree[op.socket] != a
    ensures Silent(Perform(w, op).0, a)
  {
    hide Inv, SetEvent, UpdateIfPolling;
    var x := w.tree[op.socket];
    InTree(w, op.socket);
    SetEventInv(w, x, op.events, op.data);
    SetEventKeeps(w, x, op.events, op.data);
    SetEventOthers(w, x, op.events, op.data, a);
    UpdateSilent(SetEvent(w, x, op.events, op.data), op.answers, a);
  }

  /** A socket state that asks for nothing is not reported, and goes on asking for nothing. */
  lemma {:induction false} SilentOp(w: World, op: Operation, a: Addr)
    requires Inv(w) && Possible(w, op) && !AddAfterClose(w, op) && Silent(w, a) && !Asks(w, op, a)
    ensures Silent(Perform(w, op).0, a) && forall r | r in Perform(w, op).1 :: r.addr != a
  {
    hide Inv, SetEvent, UpdateAll, UpdateIfPolling, FeedAll, NewSock, DeleteSock, HandleGone, Wanted, Addrs, Distinct;
    SilentReports(w, op, a);
    match op
    case Add(_, _, _, _, _) =>
      SilentAdd(w, op, a);
    case Modify(socket, events, data, answers) =>
      if socket in w.tree {
        SilentModify(w, op, a);
      }
    case Remove(socket, cancelled) =>
      if socket in w.tree {
        InTree(w, socket);
        DeleteMasks(w, w.tree[socket], false, cancelled);
      }
    case PollBegin(answers) =>
      UpdateSilent(w, answers, a);
    case PollEnd(dequeued, completions) =>
      if dequeued {
        InvIgnores(w, w.(polls := w.polls - 1));
        FeedAllReports(w.(polls := w.polls - 1), completions);
      }
    case PollDone(answers) =>
      UpdateSilent(w, answers, a);
    case Close =>
  }

  // ----- runs

  ghost function RunReports(w: World, ops: seq<Operation>): seq<Report>
    requires PossibleRun(w, ops)
    decreases |ops|
  {
    if ops == [] then [] else Perform(w, ops[0]).1 + RunReports(Perform(w, ops[0]).0, ops[1..])
  }

  ghost predicate Undisturbed(w: World, ops: seq<Operation>, a: Addr)
    requires PossibleRun(w, ops)
    decreases |ops|
  {
    ops == [] || (!Asks(w, ops[0], a) && Undisturbed(Perform(w, ops[0]).0, ops[1..], a))
  }

  lemma {:induction false} SilentRun(w: World, ops: seq<Operation>, a: Addr)
    requires Inv(w) && PossibleRun(w, ops) && Silent(w, a) && Undisturbed(w, ops, a)
    ensures forall r | r in RunReports(w, ops) :: r.addr != a
    decreases |ops|
  {
    hide Inv, Perform, AddAfterClose, Silent, Asks;
    if ops != [] {
      SilentOp(w, ops[0], a);
      PerformInv(w, ops[0]);
      SilentRun(Perform(w, ops[0]).0, ops[1..], a);
    }
  }

  /** After a report to a one-shot registration, nothing more is reported for it until it is given a new mask. */
  lemma {:induction false} OneShot(w: World, op: Operation, ops: seq<Operation>, r: Report)
    requires Inv(w) && Possible(w, op) && !AddAfterClose(w, op) && r in Perform(w, op).1
    requires r.addr in w.socks && IsOneShot(w.socks[r.addr].userEvents)
    requires PossibleRun(Perform(w, op).0, ops) && Undisturbed(Perform(w, op).0, ops, r.addr)
    ensures forall later | later in RunReports(Perform(w, op).0, ops) :: later.addr != r.addr
  {
    OneShotSilences(w, op, r);
    PerformInv(w, op);
    hide Inv, Perform, Silent;
    SilentRun(Perform(w, op).0, ops, r.addr);
  }

  lemma {:induction false} OneShotSilences(w: World, op: Operation, r: Report)
    requires Inv(w) && Possible(w, op) && r in Perform(w, op).1
    requires r.addr in w.socks && IsOneShot(w.socks[r.addr].userEvents)
    ensures Silent(Perform(w, op).0, r.addr)
  {
    hide Inv, FeedAll, UpdateAll, UpdateIfPolling, NewSock, SetEvent, DeleteSock, Addrs, Wanted;
    if op.PollEnd? && op.dequeued {
      InvIgnores(w, w.(polls := w.polls - 1));
      FeedAllReports(w.(polls := w.polls - 1), op.completions);
    }
  }
}
