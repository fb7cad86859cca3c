/** The state kept under the port lock, and what each operation does to it.  Memory is explicit: `socks` holds
    exactly the allocated socket states, so that freeing, double freeing and use after free can be told apart.
    `fault` records that an assertion failed or that memory that is not allocated was touched. */
module PortModel {
  import opened PollEvents
  import opened PollGroups
  import opened Sequences

  type Addr = nat
  type Socket = nat

  const INVALID_SOCKET: Socket := 0xFFFF_FFFF_FFFF_FFFF
  datatype PollStatus = Idle | Pending | Cancelled

  /** `request` is the mask that the kernel was asked to watch. */
  datatype Sock = Sock(socket: Socket, group: GroupId, userEvents: bv32, userData: int, pendingEvents: bv32,
                       request: bv32, status: PollStatus, deletePending: bool)

  datatype World = World(socks: map<Addr, Sock>, tree: map<Socket, Addr>, updateQ: seq<Addr>, deletedQ: seq<Addr>,
                         groups: Groups, inFlight: set<Addr>,
                         open: bool, polls: nat, fault: bool)

  /** What the kernel answers when one socket is updated. */
  datatype PollResult = Submitted | InvalidHandle | OtherError
  datatype Answer = Answer(poll: PollResult, cancelled: bool)

  /** How a submitted request ended. */
  datatype Outcome = WasCancelled | Failed | NoHandles | Happened(events: bv32)
  datatype Completion = Completion(addr: Addr, outcome: Outcome)

  datatype Report = Report(addr: Addr, data: int, events: bv32)

  // ----- queues: a socket state has one queue node, shared by the update queue and the deleted queue

  predicate Enqueued(w: World, a: Addr) {
    a in w.updateQ || a in w.deletedQ
  }

  function Dequeued(w: World, a: Addr): (r: World)
    ensures r.open == w.open && r.polls == w.polls && r.socks == w.socks
  {
    if Enqueued(w, a) then w.(updateQ := Without(w.updateQ, a), deletedQ := Without(w.deletedQ, a)) else w
  }

  function RequestUpdate(w: World, a: Addr): World {
    if Enqueued(w, a) then w else w.(updateQ := w.updateQ + [a])
  }

  function AddDeleted(w: World, a: Addr): World {
    if Enqueued(w, a) then w else w.(deletedQ := w.deletedQ + [a])
  }

  // ----- poll groups

  /** A new group asserts that the port has not been closed. */
  function AcquireGroup(w: World, created: Option<GroupId>): (World, Option<GroupId>) {
    if NeedsNew(w.groups) && !w.open then (w.(fault := true), None)
    else
      var (g, x) := Acquire(w.groups, created);
      (w.(groups := g), x)
  }

  function ReleaseGroup(w: World, x: GroupId): World {
    if Releasable(w.groups, x) then w.(groups := Release(w.groups, x)) else w.(fault := true)
  }

  // ----- socket states

  /** A cancelled request watches nothing any more, but still has to complete. */
  function CancelledSock(s: Sock, cancelled: bool): Sock {
    if cancelled then s.(status := Cancelled, pendingEvents := 0) else s
  }

  function CancelPoll(w: World, a: Addr, cancelled: bool): (r: World)
    requires a in w.socks
    ensures r.updateQ == w.updateQ && r.deletedQ == w.deletedQ && r.open == w.open && r.polls == w.polls && a in r.socks
  {
    if !w.socks[a].status.Pending? then w.(fault := true)
    else w.(socks := w.socks[a := CancelledSock(w.socks[a], cancelled)])
  }

  function Unregister(w: World, a: Addr): (r: World)
    requires a in w.socks
    ensures r.socks == w.socks
  {
    var k := w.socks[a].socket;
    if k in w.tree && w.tree[k] == a then w.(tree := w.tree - {k}) else w.(fault := true)
  }

  function RetiredSock(s: Sock, cancelled: bool): Sock {
    (if s.status.Pending? then CancelledSock(s, cancelled) else s).(deletePending := true)
  }

  /** A registered socket leaves the tree and the update queue. */
  function Retire(w: World, a: Addr, cancelled: bool): (r: World)
    requires a in w.socks
    ensures a in r.socks
  {
    Unregister(Dequeued(w, a), a).(socks := w.socks[a := RetiredSock(w.socks[a], cancelled)])
  }

  /** The memory is given back; the address means nothing from here on. */
  function FreeSock(w: World, a: Addr): World
    requires a in w.socks
  {
    var w1 := ReleaseGroup(Dequeued(w, a), w.socks[a].group);
    w1.(socks := w1.socks - {a})
  }

  function DeleteSock(w: World, a: Addr, force: bool, cancelled: bool): World {
    if a !in w.socks then w.(fault := true)
    else
      var w1 := if w.socks[a].deletePending then w else Retire(w, a, cancelled);
      if force || w1.socks[a].status.Idle? then FreeSock(w1, a) else AddDeleted(w1, a)
  }

  function SetEvent(w: World, a: Addr, events: bv32, data: int): World {
    if a !in w.socks then w.(fault := true)
    else
      var wanted := events | EPOLLERR | EPOLLHUP;
      var w := w.(socks := w.socks[a := w.socks[a].(userEvents := wanted, userData := data)]);
      if Uncovered(wanted, w.socks[a].pendingEvents) != 0 then RequestUpdate(w, a) else w
  }

  /** The request is with the kernel, which owns the socket state's status block until it completes. */
  function Submit(w: World, a: Addr): (r: World)
    requires a in w.socks
    ensures r.updateQ == w.updateQ && r.deletedQ == w.deletedQ && r.open == w.open && r.polls == w.polls
  {
    var s := w.socks[a];
    w.(socks := w.socks[a := s.(request := ToAfd(s.userEvents), status := Pending, pendingEvents := s.userEvents)],
      inFlight := w.inFlight + {a})
  }

  function UpdateSock(w: World, a: Addr, answer: Answer): (World, bool) {
    if a !in w.socks || w.socks[a].deletePending then (w.(fault := true), false)
    else
      var s := w.socks[a];
      if s.status.Pending? then
        if Uncovered(s.userEvents, s.pendingEvents) == 0 then (Dequeued(w, a), true)
        else if !answer.cancelled then (w, false)
        else (Dequeued(CancelPoll(w, a, true), a), true)
      else if s.status.Cancelled? then (Dequeued(w, a), true)
      else if answer.poll.InvalidHandle? then (DeleteSock(w, a, false, answer.cancelled), true)
      else if answer.poll.OtherError? then (w, false)
      else (Dequeued(Submit(w, a), a), true)
  }

  function RawEvents(outcome: Outcome): bv32 {
    match outcome
    case WasCancelled => 0
    case Failed => EPOLLERR
    case NoHandles => 0
    case Happened(events) => FromAfd(events)
  }

  /** The kernel has let go of the status block. */
  function Completed(w: World, a: Addr): World
    requires a in w.socks
  {
    w.(socks := w.socks[a := w.socks[a].(status := Idle, pendingEvents := 0)], inFlight := w.inFlight - {a})
  }

  /** Reports what the user asked for; a one-shot registration then asks for nothing any more. */
  function Deliver(w: World, a: Addr, raw: bv32): (World, Option<Report>)
    requires a in w.socks
  {
    var s := w.socks[a];
    var events := Filtered(raw, s.userEvents);
    if events == 0 then (w, None)
    else (if IsOneShot(s.userEvents) then w.(socks := w.socks[a := s.(userEvents := 0)]) else w,
          Some(Report(a, s.userData, events)))
  }

  function FeedEvent(w: World, c: Completion): (World, Option<Report>) {
    if c.addr !in w.socks then (w.(fault := true), None)
    else
      var a := c.addr;
      var w1 := Completed(w, a);
      if w1.socks[a].deletePending || (c.outcome.Happened? && c.outcome.events & AFD_LOCAL_CLOSE != 0) then
        (DeleteSock(w1, a, false, false), None)
      else
        Deliver(RequestUpdate(w1, a), a, RawEvents(c.outcome))
  }

  // ----- loops of the port

  lemma {:induction false} DequeuedQueues(w: World, a: Addr)
    ensures Dequeued(w, a) == w.(updateQ := Without(w.updateQ, a), deletedQ := Without(w.deletedQ, a))
  {
    WithoutMembers(w.updateQ, a);
    WithoutMembers(w.deletedQ, a);
  }

  /** Retiring step by step: cancel, leave the update queue, leave the tree, mark. */
  lemma {:induction false} RetireSteps(w: World, a: Addr, cancelled: bool)
    requires a in w.socks
    ensures var w1 := if w.socks[a].status.Pending? then CancelPoll(w, a, cancelled) else w;
            var w2 := Unregister(Dequeued(w1, a), a);
            a in w2.socks && Retire(w, a, cancelled) == w2.(socks := w2.socks[a := w2.socks[a].(deletePending := true)])
  {
    hide Without, Dequeued;
    DequeuedQueues(w, a);
    DequeuedQueues(if w.socks[a].status.Pending? then CancelPoll(w, a, cancelled) else w, a);
  }

  lemma {:induction false} RetireQueues(w: World, a: Addr, cancelled: bool)
    requires a in w.socks
    ensures Retire(w, a, cancelled).updateQ == Without(w.updateQ, a)
  {
    DequeuedQueues(w, a);
  }

  lemma {:induction false} FreeQueues(w: World, a: Addr)
    requires a in w.socks
    ensures FreeSock(w, a).updateQ == Without(w.updateQ, a)
  {
    DequeuedQueues(w, a);
  }

  lemma {:induction false} DeleteDequeues(w: World, a: Addr, force: bool, cancelled: bool)
    requires a in w.socks && !w.socks[a].deletePending
    ensures DeleteSock(w, a, force, cancelled).updateQ == Without(w.updateQ, a)
  {
    hide Retire, FreeSock, Without;
    RetireQueues(w, a, cancelled);
    FreeQueues(Retire(w, a, cancelled), a);
    WithoutMembers(w.updateQ, a);
    WithoutMembers(Without(w.updateQ, a), a);
  }

  /** A successful update takes the socket off the update queue. */
  lemma {:induction false} UpdateDequeues(w: World, a: Addr, answer: Answer)
    requires UpdateSock(w, a, answer).1
    ensures UpdateSock(w, a, answer).0.updateQ == Without(w.updateQ, a)
  {
    hide DeleteSock, Without, Submit, CancelPoll, Dequeued, Uncovered;
    DeleteDequeues(w, a, false, answer.cancelled);
    DequeuedQueues(w, a);
    DequeuedQueues(CancelPoll(w, a, true), a);
    DequeuedQueues(Submit(w, a), a);
  }

  /** Submits requests for every queued socket; stops at the first failure. */
  function UpdateAll(w: World, answers: seq<Answer>): (World, bool)
    requires |w.updateQ| <= |answers|
    decreases |w.updateQ|
  {
    if w.updateQ == [] then (w, true)
    else
      var a := w.updateQ[0];
      var (next, ok) := UpdateSock(w, a, answers[0]);
      if !ok then (next, false) else
      UpdateDequeues(w, a, answers[0]);
      WithoutMembers(w.updateQ, a);
      UpdateAll(next, answers[1..])
  }

  function UpdateIfPolling(w: World, answers: seq<Answer>): World
    requires |w.updateQ| <= |answers|
  {
    if w.polls > 0 then UpdateAll(w, answers).0 else w
  }

  function FeedAll(w: World, completions: seq<Completion>): (World, seq<Report>)
    decreases |completions|
  {
    if completions == [] then (w, [])
    else
      var (w, r) := FeedEvent(w, completions[0]);
      var (w, rest) := FeedAll(w, completions[1..]);
      (w, (if r.Some? then [r.value] else []) + rest)
  }

  // ----- the operations under the lock

  /** Allocations of a new socket state: each may fail. */
  datatype Supply = Supply(base: bool, group: Option<GroupId>, sock: Option<Addr>)

  function NewSock(w: World, socket: Socket, supply: Supply): (World, Option<Addr>) {
    if socket == 0 || socket == INVALID_SOCKET || !supply.base then (w, None)
    else
      var (w, group) := AcquireGroup(w, supply.group);
      if group.None? then (w, None)
      else if supply.sock.None? then (ReleaseGroup(w, group.value), None)
      else if socket in w.tree then (ReleaseGroup(w, group.value), None)
      else
        var a := supply.sock.value;
        (w.(socks := w.socks[a := Sock(socket, group.value, 0, 0, 0, 0, Idle, false)], tree := w.tree[socket := a]),
          Some(a))
  }

  lemma {:induction false} NewSockQueue(w: World, socket: Socket, supply: Supply)
    ensures NewSock(w, socket, supply).0.updateQ == w.updateQ
  {
    hide Acquire, Release, Releasable, NeedsNew;
  }

  datatype Operation =
    | Add(socket: Socket, events: bv32, data: int, supply: Supply, answers: seq<Answer>)
    | Modify(socket: Socket, events: bv32, data: int, answers: seq<Answer>)
    | Remove(socket: Socket, cancelled: bool)
    | PollBegin(answers: seq<Answer>)
    | PollEnd(dequeued: bool, completions: seq<Completion>)
    | PollDone(answers: seq<Answer>)
    | Close

  /** Enough kernel answers for every socket that can be queued when the operation updates the queue. */
  predicate Answered(w: World, op: Operation) {
    match op
    case Add(_, _, _, _, answers) => |w.updateQ| + 1 <= |answers|
    case Modify(_, _, _, answers) => |w.updateQ| + 1 <= |answers|
    case PollBegin(answers) => |w.updateQ| <= |answers|
    case PollDone(answers) => |w.updateQ| <= |answers|
    case _ => true
  }

  function Perform(w: World, op: Operation): (World, seq<Report>)
    requires Answered(w, op)
  {
    match op
    case Add(socket, events, data, supply, answers) =>
      var (w1, a) := NewSock(w, socket, supply);
      if a.None? then (w1, []) else (UpdateIfPolling(SetEvent(w1, a.value, events, data), answers), [])
    case Modify(socket, events, data, answers) =>
      if socket !in w.tree then (w, []) else (UpdateIfPolling(SetEvent(w, w.tree[socket], events, data), answers), [])
    case Remove(socket, cancelled) =>
      if socket !in w.tree then (w, []) else (DeleteSock(w, w.tree[socket], false, cancelled), [])
    case PollBegin(answers) =>
      var (w, ok) := UpdateAll(w, answers);
      (if ok then w.(polls := w.polls + 1) else w, [])
    case PollEnd(dequeued, completions) =>
      var w := if w.polls > 0 then w.(polls := w.polls - 1) else w.(fault := true);
      if dequeued then FeedAll(w, completions) else (w, [])
    case PollDone(answers) => (UpdateIfPolling(w, answers), [])
    case Close => (w.(open := false), [])
  }
}
