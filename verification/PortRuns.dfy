/** Whole runs of a port: every operation under the lock, in any order, with any answers of the kernel. */
module PortRuns {
  import opened PollEvents
  import opened PollGroups
  import opened Sequences
  import opened PortModel
  import opened PortInvariants

  // ----- what surrounds the port

  function Completions(op: Operation): seq<Completion> {
    if op.PollEnd? && op.dequeued then op.completions else []
  }

  /** Allocators hand out unused memory, the kernel completes each submitted request once, polls end that began. */
  ghost predicate Possible(w: World, op: Operation) {
    && Answered(w, op)
    && (op.Add? ==> Fresh(w, op.supply))
    && (op.PollEnd? ==> 0 < w.polls)
    && Distinct(Completions(op)) && AllInFlight(w, Completions(op))
  }

  /** The one way to make an assertion fail: a socket is added after the port was closed, and no group has room. */
  predicate AddAfterClose(w: World, op: Operation) {
    op.Add? && HandleGone(w, op.socket, op.supply)
  }

  lemma {:induction false} SetEventKeeps(w: World, a: Addr, events: bv32, data: int)
    ensures var w' := SetEvent(w, a, events, data);
            |w'.updateQ| <= |w.updateQ| + 1 && w'.polls == w.polls && w'.open == w.open && w'.inFlight == w.inFlight
  {
    hide Uncovered;
  }

  lemma {:induction false} UpdateIfPollingInv(w: World, answers: seq<Answer>)
    requires Inv(w) && |w.updateQ| <= |answers|
    ensures Inv(UpdateIfPolling(w, answers))
  {
    hide Inv, UpdateAll;
    if w.polls > 0 {
      UpdateAllInv(w, answers);
    }
  }

  lemma {:induction false} InTree(w: World, socket: Socket)
    requires Inv(w) && socket in w.tree
    ensures w.tree[socket] in w.socks && w.socks[w.tree[socket]].socket == socket &&
      !w.socks[w.tree[socket]].deletePending
  {
  }

  lemma {:induction false} InvIgnores(w: World, w': World)
    requires Inv(w) && w' == w.(polls := w'.polls, open := w'.open)
    ensures Inv(w')
  {
    hide Registered, Queued, Counted, Flight, Interest;
  }

  /** Every operation keeps the invariant; in particular no assertion fails and nothing that was freed is touched. */
  lemma {:induction false} PerformInv(w: World, op: Operation)
    requires Inv(w) && Possible(w, op) && !AddAfterClose(w, op)
    ensures Inv(Perform(w, op).0)
  {
    hide Inv, InvExcept, SetEvent, UpdateAll, UpdateIfPolling, FeedAll, NewSock, DeleteSock, HandleGone;
    match op
    case Add(socket, events, data, supply, answers) =>
      AddInv(w, socket, events, data, supply, answers);
    case Modify(socket, events, data, answers) =>
      if socket in w.tree {
        InTree(w, socket);
        SetEventInv(w, w.tree[socket], events, data);
        SetEventKeeps(w, w.tree[socket], events, data);
        UpdateIfPollingInv(SetEvent(w, w.tree[socket], events, data), answers);
      }
    case Remove(socket, cancelled) =>
      if socket in w.tree {
        RemoveInv(w, socket, cancelled);
      }
    case PollBegin(answers) =>
      UpdateAllInv(w, answers);
      var (w1, ok) := UpdateAll(w, answers);
      InvIgnores(w1, w1.(polls := w1.polls + 1));
    case PollEnd(dequeued, completions) =>
      PollEndInv(w, dequeued, completions);
    case PollDone(answers) =>
      UpdateIfPollingInv(w, answers);
    case Close =>
      InvIgnores(w, w.(open := false));
  }

  lemma {:induction false} AddInv(w: World, socket: Socket, events: bv32, data: int, supply: Supply,
      answers: seq<Answer>)
    requires Inv(w) && Fresh(w, supply) && !HandleGone(w, socket, supply) && |w.updateQ| + 1 <= |answers|
    ensures Inv(Perform(w, Add(socket, events, data, supply, answers)).0)
  {
    hide Inv, InvExcept, SetEvent, UpdateAll, UpdateIfPolling, NewSock, HandleGone;
    NewSockInv(w, socket, supply);
    var (w1, a) := NewSock(w, socket, supply);
    if a.Some? {
      SetEventNew(w1, a.value, events, data);
      SetEventKeeps(w1, a.value, events, data);
      UpdateIfPollingInv(SetEvent(w1, a.value, events, data), answers);
    }
  }

  lemma {:induction false} RemoveInv(w: World, socket: Socket, cancelled: bool)
    requires Inv(w) && socket in w.tree
    ensures Inv(DeleteSock(w, w.tree[socket], false, cancelled))
  {
    hide Core, Flight, Interest, DeleteSock;
    InTree(w, socket);
    DeleteInv(w, w.tree[socket], cancelled, {});
    assert {} - {w.tree[socket]} == {};
  }

  lemma {:induction false} PollEndInv(w: World, dequeued: bool, completions: seq<Completion>)
    requires Inv(w) && Possible(w, PollEnd(dequeued, completions))
    ensures Inv(Perform(w, PollEnd(dequeued, completions)).0)
  {
    hide Inv, FeedAll, Distinct;
    var w1 := w.(polls := w.polls - 1);
    InvIgnores(w, w1);
    if dequeued {
      FeedAllInv(w1, completions);
    }
  }

  /** Adding after the close is exactly when an assertion fails. */
  lemma {:induction false} FaultExactly(w: World, op: Operation)
    requires Inv(w) && Possible(w, op)
    ensures Perform(w, op).0.fault <==> AddAfterClose(w, op)
  {
    if !AddAfterClose(w, op) {
      PerformInv(w, op);
      hide Perform;
    } else {
      hide Inv, SetEvent, UpdateAll, UpdateIfPolling;
    }
  }

  // ----- runs

  /** A new port. */
  const START := World(map[], map[], [], [], NO_GROUPS, {}, true, 0, false)

  ghost predicate PossibleRun(w: World, ops: seq<Operation>)
    decreases |ops|
  {
    ops == [] || (Possible(w, ops[0]) && !AddAfterClose(w, ops[0]) && PossibleRun(Perform(w, ops[0]).0, ops[1..]))
  }

  ghost function RunOps(w: World, ops: seq<Operation>): World
    requires PossibleRun(w, ops)
    decreases |ops|
  {
    if ops == [] then w else RunOps(Perform(w, ops[0]).0, ops[1..])
  }

  lemma {:induction false} RunInv(w: World, ops: seq<Operation>)
    requires Inv(w) && PossibleRun(w, ops)
    ensures Inv(RunOps(w, ops))
    decreases |ops|
  {
    hide Inv, Perform;
    if ops != [] {
      PerformInv(w, ops[0]);
      RunInv(Perform(w, ops[0]).0, ops[1..]);
    }
  }

  /** The kernel has a request that can report every known event the user wants. */
  ghost predicate Seen(s: Sock) {
    s.status.Pending? && Unseen(s.userEvents, s.request) == 0 && Sees(s.request, s.userEvents)
  }

  lemma {:induction false} SeenByKernel(s: Sock, queued: bool)
    requires LookedAfter(s, queued) && Watching(s) && WantsErrors(s)
    ensures queued || s.status.Cancelled? || Seen(s)
  {
    hide Unseen, Uncovered, ToAfd, Sees;
    if s.status.Pending? && Uncovered(s.userEvents, s.pendingEvents) == 0 {
      CoveredIsSeen(s.userEvents, s.pendingEvents);
      CoveredSees(s.userEvents, s.pendingEvents);
    }
  }

  lemma {:induction false} AllSeen(w: World)
    requires Inv(w)
    ensures forall a | a in w.socks && !w.socks[a].deletePending ::
      a in w.updateQ || w.socks[a].status.Cancelled? || Seen(w.socks[a])
  {
    hide Core, LookedAfter, Watching, Seen;
    forall a | a in w.socks && !w.socks[a].deletePending
      ensures a in w.updateQ || w.socks[a].status.Cancelled? || Seen(w.socks[a])
    {
      SeenByKernel(w.socks[a], a in w.updateQ);
    }
  }

  /** In every reachable state: no assertion has failed, the kernel holds only allocated memory, every allocated socket
      state is in the tree or on the deleted queue, never both, and no interest is lost: every registered socket waits
      on the update queue, or for the end of a cancelled request, or the kernel watches everything its user wants. */
  lemma {:induction false} EveryRun(ops: seq<Operation>)
    requires PossibleRun(START, ops)
    ensures var w := RunOps(START, ops);
      && !w.fault
      && (forall a | a in w.inFlight :: a in w.socks)
      && (forall a | a in w.socks ::
         (a in w.deletedQ) == w.socks[a].deletePending && (a in w.tree.Values) == !w.socks[a].deletePending)
      && (forall a | a in w.updateQ :: a !in w.deletedQ)
      && (forall a | a in w.socks && !w.socks[a].deletePending ::
            a in w.updateQ || w.socks[a].status.Cancelled? || Seen(w.socks[a]))
  {
    RunInv(START, ops);
    var w := RunOps(START, ops);
    hide Counted, LookedAfter, RunOps, Seen, Watching;
    AllSeen(w);
    forall a | a in w.socks
      ensures (a in w.tree.Values) == !w.socks[a].deletePending
    {
      if !w.socks[a].deletePending {
        assert w.socks[a].socket in w.tree.Keys;
      }
    }
  }

  /** Once the queue has been worked off, the kernel has a request for every registered socket, and unless that was
      cancelled the request can report every known event that the user wants. */
  lemma {:induction false} AllWatched(w: World, answers: seq<Answer>)
    requires Inv(w) && |w.updateQ| <= |answers| && UpdateAll(w, answers).1
    ensures var w' := UpdateAll(w, answers).0;
      && w'.updateQ == []
      && forall a | a in w'.socks && !w'.socks[a].deletePending ::
           a in w'.inFlight && (w'.socks[a].status.Cancelled? || Seen(w'.socks[a]))
  {
    hide Core, Interest, Watching, UpdateAll;
    UpdateAllInv(w, answers);
    AllSeen(UpdateAll(w, answers).0);
  }

  /** The failing assertion can be reached: close the port, then add a first socket. */
  lemma {:induction false} CloseThenAdd(socket: Socket, answers: seq<Answer>)
    requires socket != 0 && socket != INVALID_SOCKET && |answers| > 0
    ensures PossibleRun(START, [Close])
    ensures var w := RunOps(START, [Close]);
            var add := Add(socket, EPOLLIN, 0, Supply(true, Some(1), Some(2)), answers);
            Possible(w, add) && Perform(w, add).0.fault
  {
    hide SetEvent, UpdateIfPolling;
    var w := START.(open := false);
    assert [Close][1..] == [];
    assert Perform(START, Close).0 == w;
    assert RunOps(START, [Close]) == RunOps(w, []);
  }

  // ----- a request's memory outlives the request

  lemma {:induction false} UpdateSockFlight(w: World, a: Addr, answer: Answer)
    requires Inv(w) && a in w.updateQ
    ensures w.inFlight <= UpdateSock(w, a, answer).0.inFlight
  {
    hide Core, DeleteSock, Uncovered, Flight, Interest;
    QueuedMember(w, a);
    if w.socks[a].status.Idle? {
      DeleteCore(w, a, false, answer.cancelled);
    }
  }

  lemma {:induction false} UpdateAllFlight(w: World, answers: seq<Answer>)
    requires Inv(w) && |w.updateQ| <= |answers|
    ensures w.inFlight <= UpdateAll(w, answers).0.inFlight
    decreases |w.updateQ|
  {
    hide Inv, UpdateSock, Without;
    if w.updateQ != [] {
      var a := w.updateQ[0];
      UpdateSockInv(w, a, answers[0]);
      UpdateSockFlight(w, a, answers[0]);
      var (next, ok) := UpdateSock(w, a, answers[0]);
      if ok {
        UpdateDequeues(w, a, answers[0]);
        WithoutMembers(w.updateQ, a);
        UpdateAllFlight(next, answers[1..]);
      }
    }
  }

  function Addrs(cs: seq<Completion>): set<Addr> {
    set c | c in cs :: c.addr
  }

  lemma {:induction false} FeedAllFlight(w: World, cs: seq<Completion>)
    requires Inv(w) && Distinct(cs) && AllInFlight(w, cs)
    ensures FeedAll(w, cs).0.inFlight == w.inFlight - Addrs(cs)
    decreases |cs|
  {
    hide Inv, FeedEvent;
    if cs != [] {
      FeedEventInv(w, cs[0]);
      FeedAllFlight(FeedEvent(w, cs[0]).0, cs[1..]);
      AddrsStep(cs);
    }
  }

  lemma {:induction false} AddrsStep(cs: seq<Completion>)
    requires cs != []
    ensures Addrs(cs) == {cs[0].addr} + Addrs(cs[1..])
  {
    assert cs == [cs[0]] + cs[1..];
  }

  /** Whatever happens, a request that does not complete keeps its socket state allocated. */
  lemma {:induction false} FlightKept(w: World, op: Operation)
    requires Inv(w) && Possible(w, op) && !AddAfterClose(w, op)
    ensures w.inFlight - Addrs(Completions(op)) <= Perform(w, op).0.inFlight
    ensures Perform(w, op).0.inFlight <= Perform(w, op).0.socks.Keys
  {
    hide Inv, InvExcept, SetEvent, UpdateAll, FeedAll, NewSock, DeleteSock, HandleGone, Addrs, Distinct;
    FlightAllocated(w, op);
    match op
    case Add(socket, events, data, supply, answers) =>
      NewSockInv(w, socket, supply);
      var (w1, a) := NewSock(w, socket, supply);
      NewSockFlight(w, socket, supply);
      if a.Some? {
        SetEventNew(w1, a.value, events, data);
        SetEventKeeps(w1, a.value, events, data);
        UpdateAllFlight(SetEvent(w1, a.value, events, data), answers);
      }
    case Modify(socket, events, data, answers) =>
      if socket in w.tree {
        InTree(w, socket);
        SetEventInv(w, w.tree[socket], events, data);
        SetEventKeeps(w, w.tree[socket], events, data);
        UpdateAllFlight(SetEvent(w, w.tree[socket], events, data), answers);
      }
    case Remove(socket, cancelled) =>
      if socket in w.tree {
        RemoveFlight(w, socket, cancelled);
      }
    case PollBegin(answers) =>
      UpdateAllFlight(w, answers);
    case PollEnd(dequeued, completions) =>
      if dequeued {
        InvIgnores(w, w.(polls := w.polls - 1));
        FeedAllFlight(w.(polls := w.polls - 1), completions);
      }
    case PollDone(answers) =>
      UpdateAllFlight(w, answers);
    case Close =>
  }

  lemma {:induction false} NewSockFlight(w: World, socket: Socket, supply: Supply)
    ensures NewSock(w, socket, supply).0.inFlight == w.inFlight
  {
    hide Acquire, Release, Releasable, NeedsNew;
  }

  lemma {:induction false} RemoveFlight(w: World, socket: Socket, cancelled: bool)
    requires Inv(w) && socket in w.tree
    ensures DeleteSock(w, w.tree[socket], false, cancelled).inFlight == w.inFlight
  {
    hide Core, Flight, Interest, DeleteSock;
    InTree(w, socket);
    DeleteCore(w, w.tree[socket], false, cancelled);
  }

  lemma {:induction false} FlightAllocated(w: World, op: Operation)
    requires Inv(w) && Possible(w, op) && !AddAfterClose(w, op)
    ensures Perform(w, op).0.inFlight <= Perform(w, op).0.socks.Keys
  {
    hide Perform, Core, Interest;
    PerformInv(w, op);
  }
}
