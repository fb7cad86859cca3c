/** What the operations on one socket state do, field by field, in a port that is in order. */
module PortEffects {
  import opened PollEvents
  import opened PollGroups
  import opened Sequences
  import opened PortModel
  import opened PortInvariants
  import opened PortRuns
  import opened PortWaiting

  // ----- setting a mask

  /** The mask that is kept, the data, and a place at the end of the queue exactly if some event is not watched yet. */
  lemma {:induction false} SetEventExactly(w: World, a: Addr, events: bv32, data: int)
    requires Inv(w) && a in w.socks && !w.socks[a].deletePending
    ensures var wanted := events | 8 | 16;
      SetEvent(w, a, events, data) ==
      w.(socks := w.socks[a := w.socks[a].(userEvents := wanted, userData := data)],
         updateQ := if a in w.updateQ || AllWithin(wanted, w.socks[a].pendingEvents) then w.updateQ
                    else w.updateQ + [a])
  {
    hide Inv, Uncovered, AllWithin;
    NotDeleted(w, a);
    Flags(events);
    CoveredExactly(events | EPOLLERR | EPOLLHUP, w.socks[a].pendingEvents);
  }

  lemma {:induction false} NotDeleted(w: World, a: Addr)
    requires Inv(w) && a in w.socks && !w.socks[a].deletePending
    ensures a !in w.deletedQ
  {
    hide Registered, Counted, Flight, Interest;
  }

  // ----- updating

  /** The kernel is asked for exactly the events whose report holds something that is wanted, for a failed connection
      with the errors, and for closed sockets. */
  ghost predicate AsksFor(request: bv32, wanted: bv32) {
    && (forall k | IsKernelEvent(k) && k != AFD_CONNECT_FAIL :: Has(request, k) <==> Has(FromAfd(k), wanted))
    && (Has(request, AFD_CONNECT_FAIL) <==> Has(wanted, EPOLLERR))
    && Has(request, AFD_LOCAL_CLOSE) && !Has(request, !0x01bf)
  }

  lemma {:induction false} RequestAsks(wanted: bv32)
    ensures AsksFor(ToAfd(wanted), wanted)
  {
    hide ToAfd, FromAfd, IsKernelEvent;
    AskedExactly(wanted, 0);
    forall k | IsKernelEvent(k) && k != AFD_CONNECT_FAIL
      ensures Has(ToAfd(wanted), k) <==> Has(FromAfd(k), wanted)
    {
      AskedExactly(wanted, k);
    }
  }

  /** What is done for a socket at the head of the queue, by the state of its request and the answers of the kernel. */
  ghost predicate UpdateEffect(w: World, a: Addr, answer: Answer, w': World, ok: bool)
    requires a in w.socks
  {
    var s, rest := w.socks[a], Without(w.updateQ, a);
    match s.status
    case Pending =>
      if AllWithin(s.userEvents, s.pendingEvents) then ok && w' == w.(updateQ := rest)
      else if answer.cancelled then
        ok && w' == w.(updateQ := rest, socks := w.socks[a := s.(status := Cancelled, pendingEvents := 0)])
      else !ok && w' == w
    case Cancelled => ok && w' == w.(updateQ := rest)
    case Idle =>
      match answer.poll
      case OtherError => !ok && w' == w
      case InvalidHandle =>
        && ok && w'.socks == w.socks - {a} && w'.tree == w.tree - {s.socket} && w'.updateQ == rest
        && w'.deletedQ == w.deletedQ && w'.inFlight == w.inFlight
      case Submitted =>
        && ok && a in w'.socks && AsksFor(w'.socks[a].request, s.userEvents)
        && w' == w.(updateQ := rest, inFlight := w.inFlight + {a},
                    socks := w.socks[a := s.(status := Pending, pendingEvents := s.userEvents,
                                             request := w'.socks[a].request)])
  }

  lemma {:induction false} UpdateExactly(w: World, a: Addr, answer: Answer)
    requires Inv(w) && a in w.updateQ
    ensures a in w.socks && UpdateEffect(w, a, answer, UpdateSock(w, a, answer).0, UpdateSock(w, a, answer).1)
  {
    hide Inv, Without, Dequeued, DeleteSock, Uncovered, AllWithin, AsksFor, ToAfd;
    Head(w, a);
    var s := w.socks[a];
    CoveredExactly(s.userEvents, s.pendingEvents);
    RequestAsks(s.userEvents);
    TakenOff(w, a);
    TakenOff(CancelPoll(w, a, true), a);
    TakenOff(Submit(w, a), a);
    if s.status.Idle? && answer.poll.InvalidHandle? {
      Dropped(w, a, answer.cancelled);
    }
  }

  lemma {:induction false} Head(w: World, a: Addr)
    requires Inv(w) && a in w.updateQ
    ensures a in w.socks && !w.socks[a].deletePending && a !in w.deletedQ
  {
    hide Registered, Counted, Flight, Interest;
  }

  lemma {:induction false} TakenOff(w: World, a: Addr)
    requires a in w.updateQ && a !in w.deletedQ
    ensures Dequeued(w, a) == w.(updateQ := Without(w.updateQ, a))
  {
    WithoutMembers(w.deletedQ, a);
  }

  lemma {:induction false} Dropped(w: World, a: Addr, cancelled: bool)
    requires Inv(w) && a in w.updateQ && a in w.socks && w.socks[a].status.Idle?
    ensures var w' := DeleteSock(w, a, false, cancelled);
      && w'.socks == w.socks - {a} && w'.tree == w.tree - {w.socks[a].socket} && w'.updateQ == Without(w.updateQ, a)
      && w'.deletedQ == w.deletedQ && w'.inFlight == w.inFlight
  {
    hide Registered, Counted, Queued, Flight, Interest, Without, Releasable, Release, Dequeued;
    Head(w, a);
    TreeEntry(w, a);
    TakenOff(w, a);
    WithoutMembers(w.updateQ, a);
    var r := Retire(w, a, cancelled);
    assert r == w.(updateQ := Without(w.updateQ, a), tree := w.tree - {w.socks[a].socket}, socks := r.socks);
    NotQueued(r, a);
    assert r.socks - {a} == w.socks - {a};
  }

  lemma {:induction false} TreeEntry(w: World, a: Addr)
    requires Inv(w) && a in w.socks && !w.socks[a].deletePending
    ensures w.socks[a].socket in w.tree && w.tree[w.socks[a].socket] == a
  {
    hide Queued, Counted, Flight, Interest;
  }

  lemma {:induction false} NotQueued(w: World, a: Addr)
    requires a !in w.updateQ && a !in w.deletedQ
    ensures Dequeued(w, a) == w
  {
  }

  // ----- who waits

  /** How many calls wait: those that began to, less those that stopped. */
  ghost function WaitingCalls(w: World, ops: seq<Operation>): int
    requires PossibleRun(w, ops)
    decreases |ops|
  {
    if ops == [] then 0
    else
      var op := ops[0];
      (if op.PollBegin? && UpdateAll(w, op.answers).1 then 1 else if op.PollEnd? then -1 else 0)
      + WaitingCalls(Perform(w, op).0, ops[1..])
  }

  lemma {:induction false} FeedEventPolls(w: World, c: Completion)
    ensures FeedEvent(w, c).0.polls == w.polls
  {
    hide DeleteSock, RawEvents, Filtered, IsOneShot;
    if c.addr in w.socks {
      DeletePolls(Completed(w, c.addr), c.addr, false);
    }
  }

  lemma {:induction false} FeedAllPolls(w: World, cs: seq<Completion>)
    ensures FeedAll(w, cs).0.polls == w.polls
    decreases |cs|
  {
    hide FeedEvent;
    if cs != [] {
      FeedEventPolls(w, cs[0]);
      FeedAllPolls(FeedEvent(w, cs[0]).0, cs[1..]);
    }
  }

  lemma {:induction false} SetPolls(w: World, a: Addr, events: bv32, data: int, answers: seq<Answer>)
    requires Inv(SetEvent(w, a, events, data)) && |w.updateQ| + 1 <= |answers|
    ensures |SetEvent(w, a, events, data).updateQ| <= |answers|
    ensures UpdateIfPolling(SetEvent(w, a, events, data), answers).polls == w.polls
  {
    hide Inv, SetEvent, UpdateAll;
    SetEventKeeps(w, a, events, data);
    EmptiedExactly(SetEvent(w, a, events, data), answers);
  }

  lemma {:induction false} PollsStep(w: World, op: Operation)
    requires Inv(w) && Possible(w, op) && !AddAfterClose(w, op)
    ensures Perform(w, op).0.polls ==
            w.polls + if op.PollBegin? && UpdateAll(w, op.answers).1 then 1 else if op.PollEnd? then -1 else 0
  {
    hide Inv, InvExcept, SetEvent, UpdateAll, UpdateIfPolling, FeedAll, NewSock, DeleteSock, HandleGone, Distinct;
    match op
    case Add(socket, events, data, supply, answers) =>
      NewSockInv(w, socket, supply);
      NewSockPolls(w, socket, supply);
      var (w1, a) := NewSock(w, socket, supply);
      if a.Some? {
        SetEventNew(w1, a.value, events, data);
        SetPolls(w1, a.value, events, data, answers);
      }
    case Modify(socket, events, data, answers) =>
      if socket in w.tree {
        InTree(w, socket);
        SetEventInv(w, w.tree[socket], events, data);
        SetPolls(w, w.tree[socket], events, data, answers);
      }
    case Remove(socket, cancelled) =>
      if socket in w.tree {
        InTree(w, socket);
        DeletePolls(w, w.tree[socket], cancelled);
      }
    case PollBegin(answers) => EmptiedExactly(w, answers);
    case PollEnd(_, completions) => FeedAllPolls(w.(polls := w.polls - 1), completions);
    case PollDone(answers) => DonePolls(w, answers);
    case Close =>
  }

  lemma {:induction false} DonePolls(w: World, answers: seq<Answer>)
    requires Inv(w) && |w.updateQ| <= |answers|
    ensures UpdateIfPolling(w, answers).polls == w.polls
  {
    hide Inv, UpdateAll;
    EmptiedExactly(w, answers);
  }

  lemma {:induction false} RunPolls(w: World, ops: seq<Operation>)
    requires Inv(w) && PossibleRun(w, ops)
    ensures RunOps(w, ops).polls == w.polls + WaitingCalls(w, ops)
    decreases |ops|
  {
    hide Inv, Perform, AddAfterClose, UpdateAll, Distinct;
    if ops != [] {
      PerformInv(w, ops[0]);
      PollsStep(w, ops[0]);
      RunPolls(Perform(w, ops[0]).0, ops[1..]);
    }
  }

  /** In every run, the counter is the number of calls that wait. */
  lemma {:induction false} CountsWaiting(ops: seq<Operation>)
    requires PossibleRun(START, ops)
    ensures RunOps(START, ops).polls == WaitingCalls(START, ops)
  {
    hide Inv, PossibleRun, RunOps, WaitingCalls;
    StartInv();
    RunPolls(START, ops);
  }
}
