/** Who waits in epoll_wait, waits for everything: no registered socket is left on the update queue meanwhile. */
module PortWaiting {
  import opened PollEvents
  import opened PollGroups
  import opened Sequences
  import opened PortModel
  import opened PortInvariants
  import opened PortRuns

  /** While some call waits, nothing waits to be handed to the kernel. */
  predicate Awake(w: World) {
    w.polls > 0 ==> w.updateQ == []
  }

  // ----- working off the queue

  /** A failed update changes nothing. */
  lemma {:induction false} RefusedSock(w: World, a: Addr, answer: Answer)
    requires Inv(w) && a in w.updateQ && !UpdateSock(w, a, answer).1
    ensures UpdateSock(w, a, answer).0 == w
  {
    hide Core, Flight, Interest, DeleteSock, Uncovered, Dequeued, Submit, CancelPoll;
    QueuedMember(w, a);
  }

  /** The queue is empty afterwards exactly when the kernel refused nothing. */
  lemma {:induction false} EmptiedExactly(w: World, answers: seq<Answer>)
    requires Inv(w) && |w.updateQ| <= |answers|
    ensures UpdateAll(w, answers).1 <==> UpdateAll(w, answers).0.updateQ == []
    ensures UpdateAll(w, answers).0.polls == w.polls
    decreases |w.updateQ|
  {
    hide Inv, UpdateSock, Without;
    if w.updateQ != [] {
      var a := w.updateQ[0];
      UpdateSockInv(w, a, answers[0]);
      UpdateSockPolls(w, a, answers[0]);
      var (next, ok) := UpdateSock(w, a, answers[0]);
      if ok {
        UpdateDequeues(w, a, answers[0]);
        WithoutMembers(w.updateQ, a);
        EmptiedExactly(next, answers[1..]);
      } else {
        RefusedSock(w, a, answers[0]);
      }
    }
  }

  lemma {:induction false} UpdateSockPolls(w: World, a: Addr, answer: Answer)
    ensures UpdateSock(w, a, answer).0.polls == w.polls
  {
    hide Uncovered, Dequeued, DeleteSock;
    if a in w.socks {
      DeletePolls(w, a, answer.cancelled);
    }
  }

  lemma {:induction false} DeletePolls(w: World, a: Addr, cancelled: bool)
    requires a in w.socks
    ensures DeleteSock(w, a, false, cancelled).polls == w.polls
  {
    hide Retire, FreeSock;
    RetirePolls(w, a, cancelled);
    FreePolls(w, a);
    FreePolls(Retire(w, a, cancelled), a);
  }

  lemma {:induction false} RetirePolls(w: World, a: Addr, cancelled: bool)
    requires a in w.socks
    ensures Retire(w, a, cancelled).polls == w.polls
  {
    hide Dequeued;
  }

  lemma {:induction false} FreePolls(w: World, a: Addr)
    requires a in w.socks
    ensures FreeSock(w, a).polls == w.polls
  {
    hide Dequeued, Releasable, Release;
  }

  /** The kernel lets go of every request that is cancelled, and takes every new one unless its handle is invalid. */
  predicate Granted(answers: seq<Answer>) {
    forall x | x in answers :: x.cancelled && !x.poll.OtherError?
  }

  lemma {:induction false} GrantedUpdates(w: World, answers: seq<Answer>)
    requires Inv(w) && |w.updateQ| <= |answers| && Granted(answers)
    ensures UpdateAll(w, answers).1
    decreases |w.updateQ|
  {
    hide Inv, UpdateSock, Without;
    if w.updateQ != [] {
      var a := w.updateQ[0];
      assert answers[0] in answers && forall x | x in answers[1..] :: x in answers;
      UpdateSockInv(w, a, answers[0]);
      GrantedSock(w, a, answers[0]);
      UpdateDequeues(w, a, answers[0]);
      WithoutMembers(w.updateQ, a);
      GrantedUpdates(UpdateSock(w, a, answers[0]).0, answers[1..]);
    }
  }

  lemma {:induction false} GrantedSock(w: World, a: Addr, answer: Answer)
    requires Inv(w) && a in w.updateQ && answer.cancelled && !answer.poll.OtherError?
    ensures UpdateSock(w, a, answer).1
  {
    hide Core, Flight, Interest, DeleteSock, Uncovered, Dequeued, Submit, CancelPoll;
    QueuedMember(w, a);
  }

  // ----- one operation

  /** A state whose queue is worked off, and what the kernel answers. */
  datatype Work = Work(state: World, answers: seq<Answer>)

  /** Where the operation works off the queue, if it does. */
  function Loop(w: World, op: Operation): Option<Work> {
    match op
    case Add(socket, events, data, supply, answers) =>
      var (w1, a) := NewSock(w, socket, supply);
      if a.Some? && w.polls > 0 then Some(Work(SetEvent(w1, a.value, events, data), answers)) else None
    case Modify(socket, events, data, answers) =>
      if socket in w.tree && w.polls > 0 then Some(Work(SetEvent(w, w.tree[socket], events, data), answers)) else None
    case PollBegin(answers) => Some(Work(w, answers))
    case PollDone(answers) => if w.polls > 0 then Some(Work(w, answers)) else None
    case _ => None
  }

  /** There is an answer for every socket of the queue. */
  predicate Enough(work: Option<Work>) {
    work.Some? ==> |work.value.state.updateQ| <= |work.value.answers|
  }

  /** It does, and the kernel refuses a request. */
  predicate Refused(w: World, op: Operation)
    requires Enough(Loop(w, op))
  {
    Loop(w, op).Some? && !UpdateAll(Loop(w, op).value.state, Loop(w, op).value.answers).1
  }

  lemma {:induction false} LoopInv(w: World, op: Operation)
    requires Inv(w) && Possible(w, op) && !AddAfterClose(w, op)
    ensures Enough(Loop(w, op))
    ensures Loop(w, op).Some? ==>
      var Work(w1, answers) := Loop(w, op).value;
      Inv(w1) && Perform(w, op).0 == UpdateAll(w1, answers).0.(polls := Perform(w, op).0.polls)
  {
    hide Inv, InvExcept, SetEvent, UpdateAll, NewSock, HandleGone;
    match op
    case Add(socket, events, data, supply, _) =>
      NewSockInv(w, socket, supply);
      NewSockPolls(w, socket, supply);
      var (w1, a) := NewSock(w, socket, supply);
      if a.Some? {
        SetEventNew(w1, a.value, events, data);
        SetEventKeeps(w1, a.value, events, data);
      }
    case Modify(socket, events, data, _) =>
      if socket in w.tree {
        InTree(w, socket);
        SetEventInv(w, w.tree[socket], events, data);
        SetEventKeeps(w, w.tree[socket], events, data);
      }
    case _ =>
  }

  lemma {:induction false} NewSockPolls(w: World, socket: Socket, supply: Supply)
    ensures NewSock(w, socket, supply).0.polls == w.polls
  {
    hide Acquire, Release, Releasable, NeedsNew;
  }

  /** An operation that works off the queue leaves it empty, unless the kernel refuses a request. */
  lemma {:induction false} LoopAwake(w: World, op: Operation)
    requires Inv(w) && Possible(w, op) && !AddAfterClose(w, op) && Loop(w, op).Some?
    ensures Enough(Loop(w, op))
    ensures Refused(w, op) <==> Perform(w, op).0.updateQ != []
  {
    hide Inv, Loop, UpdateAll, Perform, AddAfterClose, Possible;
    LoopInv(w, op);
    EmptiedExactly(Loop(w, op).value.state, Loop(w, op).value.answers);
  }

  /** The others leave a waiting call with an empty queue, except the end of a poll, which holds the lock. */
  lemma {:induction false} OthersAwake(w: World, op: Operation)
    requires Inv(w) && Possible(w, op) && !AddAfterClose(w, op) && Loop(w, op).None? && !op.PollEnd? && Awake(w)
    ensures Awake(Perform(w, op).0)
  {
    hide Inv, UpdateAll, NewSock, SetEvent, DeleteSock, Without, HandleGone;
    match op
    case Add(socket, events, data, supply, _) =>
      NewSockQueue(w, socket, supply);
      NewSockPolls(w, socket, supply);
      var (w1, a) := NewSock(w, socket, supply);
      if a.Some? {
        SetEventKeeps(w1, a.value, events, data);
      }
    case Modify(socket, events, data, _) =>
      if socket in w.tree {
        SetEventKeeps(w, w.tree[socket], events, data);
      }
    case Remove(socket, cancelled) =>
      if socket in w.tree {
        RemoveQueue(w, socket, cancelled);
      }
    case _ =>
  }

  lemma {:induction false} RemoveQueue(w: World, socket: Socket, cancelled: bool)
    requires Inv(w) && socket in w.tree
    ensures var w' := DeleteSock(w, w.tree[socket], false, cancelled);
            w'.polls == w.polls && (w.updateQ == [] ==> w'.updateQ == [])
  {
    hide Inv, DeleteSock;
    InTree(w, socket);
    DeleteDequeues(w, w.tree[socket], false, cancelled);
    DeletePolls(w, w.tree[socket], cancelled);
  }

  // ----- runs

  /** The lock is not given up after the end of a poll, nor after a poll that did not begin: another poll or the last
      update follows first. */
  predicate HoldsLock(w: World, op: Operation)
    requires Answered(w, op)
  {
    op.PollEnd? || (op.PollBegin? && !UpdateAll(w, op.answers).1)
  }

  ghost predicate LockRespected(w: World, ops: seq<Operation>, held: bool)
    requires PossibleRun(w, ops)
    decreases |ops|
  {
    ops == [] ||
    ((held ==> ops[0].PollBegin? || ops[0].PollDone?) &&
      LockRespected(Perform(w, ops[0]).0, ops[1..], HoldsLock(w, ops[0])))
  }

  /** Whether the lock is held at the end of a run. */
  ghost function HeldAfter(w: World, ops: seq<Operation>, held: bool): bool
    requires PossibleRun(w, ops)
    decreases |ops|
  {
    if ops == [] then held else HeldAfter(Perform(w, ops[0]).0, ops[1..], HoldsLock(w, ops[0]))
  }

  /** Whether the kernel refused a request when the queue was worked off for the last time. */
  ghost function RefusedAfter(w: World, ops: seq<Operation>, refused: bool): bool
    requires Inv(w) && PossibleRun(w, ops)
    decreases |ops|
  {
    if ops == [] then refused
    else
      LoopInv(w, ops[0]);
      PerformInv(w, ops[0]);
      RefusedAfter(Perform(w, ops[0]).0, ops[1..], if Loop(w, ops[0]).Some? then Refused(w, ops[0]) else refused)
  }

  lemma {:induction false} StepAwake(w: World, op: Operation, held: bool, refused: bool)
    requires Inv(w) && Possible(w, op) && !AddAfterClose(w, op) && (held ==> op.PollBegin? || op.PollDone?)
    requires Awake(w) || held || refused
    ensures Enough(Loop(w, op))
    ensures Awake(Perform(w, op).0) || HoldsLock(w, op) || if Loop(w, op).Some? then Refused(w, op) else refused
  {
    hide Inv, Perform, Loop, Refused, AddAfterClose, UpdateAll;
    LoopInv(w, op);
    if Loop(w, op).Some? {
      LoopAwake(w, op);
    } else if !op.PollEnd? {
      if held {
        NoLoop(w, op);
      } else if Awake(w) {
        OthersAwake(w, op);
      }
    }
  }

  lemma {:induction false} NoLoop(w: World, op: Operation)
    requires Loop(w, op).None? && (op.PollBegin? || op.PollDone?) && Answered(w, op)
    ensures Awake(Perform(w, op).0)
  {
  }

  lemma {:induction false} AwakeRun(w: World, ops: seq<Operation>, held: bool, refused: bool)
    requires Inv(w) && PossibleRun(w, ops) && LockRespected(w, ops, held) && (Awake(w) || held || refused)
    ensures Awake(RunOps(w, ops)) || HeldAfter(w, ops, held) || RefusedAfter(w, ops, refused)
    decreases |ops|
  {
    hide Inv, Perform, Awake, Loop, Refused, HoldsLock, AddAfterClose;
    if ops != [] {
      var op := ops[0];
      LoopInv(w, op);
      PerformInv(w, op);
      StepAwake(w, op, held, refused);
      AwakeRun(Perform(w, op).0, ops[1..], HoldsLock(w, op), if Loop(w, op).Some? then Refused(w, op) else refused);
    }
  }

  lemma {:induction false} StartInv()
    ensures Inv(START)
  {
  }

  /** In every run, whenever the lock is free and a call waits: unless the kernel refused a request when the queue was
      last worked off, it has a request for every registered socket, and one that was not cancelled can report every
      known event that the user wants. */
  lemma {:induction false} WaitsForAll(ops: seq<Operation>)
    requires PossibleRun(START, ops) && LockRespected(START, ops, false)
    ensures Inv(START)
    ensures var w := RunOps(START, ops);
      w.polls > 0 && !HeldAfter(START, ops, false) && !RefusedAfter(START, ops, false) ==>
        w.updateQ == [] && forall a | a in w.socks && !w.socks[a].deletePending ::
          a in w.inFlight && (w.socks[a].status.Cancelled? || Seen(w.socks[a]))
  {
    hide Inv, PossibleRun, LockRespected, HeldAfter, RefusedAfter, RunOps, Seen;
    StartInv();
    RunInv(START, ops);
    AwakeRun(START, ops, false, false);
    var w := RunOps(START, ops);
    if w.polls > 0 && w.updateQ == [] {
      EmptyQueue(w);
    }
  }

  lemma {:induction false} EmptyQueue(w: World)
    requires Inv(w) && w.updateQ == []
    ensures forall a | a in w.socks && !w.socks[a].deletePending ::
      a in w.inFlight && (w.socks[a].status.Cancelled? || Seen(w.socks[a]))
  {
    hide Core, Interest, Watching;
    AllSeen(w);
  }

  /** A kernel that grants everything refuses nothing. */
  lemma {:induction false} GrantedNotRefused(w: World, op: Operation)
    requires Inv(w) && Possible(w, op) && !AddAfterClose(w, op) &&
      (Loop(w, op).Some? ==> Granted(Loop(w, op).value.answers))
    ensures Enough(Loop(w, op)) && !Refused(w, op)
  {
    hide Inv, Loop, AddAfterClose, Possible, Perform, UpdateAll;
    LoopInv(w, op);
    if Loop(w, op).Some? {
      GrantedUpdates(Loop(w, op).value.state, Loop(w, op).value.answers);
    }
  }

  lemma {:induction false} TwoOperations(w: World, first: Operation, second: Operation)
    requires Possible(w, first) && !AddAfterClose(w, first) && !HoldsLock(w, first)
    requires var w1 := Perform(w, first).0; Possible(w1, second) && !AddAfterClose(w1, second)
    ensures var w1, ops := Perform(w, first).0, [first, second];
      && PossibleRun(w, ops) && LockRespected(w, ops, false) && RunOps(w, ops) == Perform(w1, second).0
      && HeldAfter(w, ops, false) == HoldsLock(w1, second)
  {
    hide AddAfterClose, Perform, HoldsLock, Distinct, Fresh, AllInFlight;
    var w1, ops := Perform(w, first).0, [first, second];
    assert ops[1..] == [second] && [second][1..] == [];
    var w2 := Perform(w1, second).0;
    assert PossibleRun(w2, []) && PossibleRun(w1, [second]);
    assert LockRespected(w2, [], HoldsLock(w1, second)) && LockRespected(w1, [second], HoldsLock(w, first));
    assert HeldAfter(w1, [second], HoldsLock(w, first)) == HeldAfter(w2, [], HoldsLock(w1, second));
    assert RunOps(w1, [second]) == RunOps(w2, []) == w2;
  }

  /** A refusal that is ignored: a call waits, and then a socket is added, for which the kernel refuses a request. */
  lemma {:induction false} RefusedWhileWaiting(socket: Socket)
    requires socket != 0 && socket != INVALID_SOCKET
    ensures var add := Add(socket, EPOLLIN, 0, Supply(true, Some(1), Some(2)), [Answer(OtherError, false)]);
      var ops := [PollBegin([]), add];
      && PossibleRun(START, ops) && LockRespected(START, ops, false) && !HeldAfter(START, ops, false)
      && var w := RunOps(START, ops);
         w.polls > 0 && socket in w.tree && w.updateQ == [w.tree[socket]] && w.inFlight == {}
  {
    hide SetEvent, UpdateIfPolling, NewSock, PossibleRun, LockRespected, HeldAfter, RunOps;
    var add := Add(socket, EPOLLIN, 0, Supply(true, Some(1), Some(2)), [Answer(OtherError, false)]);
    var w1 := START.(polls := 1);
    assert UpdateAll(START, []) == (START, true);
    assert Perform(START, PollBegin([])).0 == w1;
    TwoOperations(START, PollBegin([]), add);
    AddedUnwatched(w1, socket);
  }

  lemma {:induction false} AddedUnwatched(w: World, socket: Socket)
    requires w == START.(polls := 1) && socket != 0 && socket != INVALID_SOCKET
    ensures var add := Add(socket, EPOLLIN, 0, Supply(true, Some(1), Some(2)), [Answer(OtherError, false)]);
      var w' := Perform(w, add).0;
      w'.polls > 0 && socket in w'.tree && w'.updateQ == [w'.tree[socket]] && w'.inFlight == {}
  {
    var s := Sock(socket, 1, 0, 0, 0, 0, Idle, false);
    var (w1, a) := NewSock(w, socket, Supply(true, Some(1), Some(2)));
    assert a == Some(2) && w1.socks == map[2 := s] && w1.tree == map[socket := 2] && w1.updateQ == [];
    Wanted(EPOLLIN);
    var w2 := SetEvent(w1, 2, EPOLLIN, 0);
    assert w2.updateQ == [2] && w2.socks[2].status == Idle && !w2.socks[2].deletePending;
    assert UpdateSock(w2, 2, Answer(OtherError, false)) == (w2, false);
    assert UpdateAll(w2, [Answer(OtherError, false)]).0 == w2;
  }
}
