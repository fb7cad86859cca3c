/** What holds whenever the port lock is free, and that every operation keeps it. */
module PortInvariants {
  import opened PollEvents
  import opened PollGroups
  import opened Sequences
  import opened PortModel

  type Socks = map<Addr, Sock>

  // ----- the parts of the invariant

  /** The tree holds exactly the allocated socket states that are not waiting to be deleted, under their sockets. */
  ghost predicate Registered(socks: Socks, tree: map<Socket, Addr>) {
    && (forall k | k in tree :: tree[k] in socks && socks[tree[k]].socket == k && !socks[tree[k]].deletePending)
    && (forall a | a in socks && !socks[a].deletePending :: socks[a].socket in tree && tree[socks[a].socket] == a)
  }

  /** The update queue holds registered socket states, the deleted queue exactly the others; none occurs twice. */
  ghost predicate Queued(socks: Socks, updateQ: seq<Addr>, deletedQ: seq<Addr>) {
    && NoDuplicates(updateQ) && NoDuplicates(deletedQ)
    && (forall a | a in updateQ :: a in socks && !socks[a].deletePending)
    && (forall a :: a in deletedQ <==> a in socks && socks[a].deletePending)
  }

  ghost function Users(socks: Socks, x: GroupId): set<Addr> {
    set a | a in socks && socks[a].group == x
  }

  /** Every group counts exactly the allocated socket states that use it. */
  ghost predicate Counted(socks: Socks, g: Groups) {
    && Ok(g)
    && (forall a | a in socks :: socks[a].group in g.size)
    && (forall x | x in g.size :: g.size[x] == |Users(socks, x)|)
  }

  /** The kernel holds on to exactly the socket states with a submitted request, and all of them are allocated. */
  ghost predicate Flight(socks: Socks, inFlight: set<Addr>) {
    && (forall a :: a in inFlight <==> a in socks && !socks[a].status.Idle?)
    && (forall a | a in socks :: Watching(socks[a]) && WantsErrors(socks[a]))
  }

  /** A pending request asks the kernel for exactly the events it is recorded to watch. */
  ghost predicate Watching(s: Sock) {
    s.status.Pending? ==> s.request == ToAfd(s.pendingEvents)
  }

  /** A user who wants anything wants errors and hang-ups. */
  ghost predicate WantsErrors(s: Sock) {
    s.userEvents == 0 || (s.userEvents & EPOLLERR != 0 && s.userEvents & EPOLLHUP != 0)
  }

  /** Somebody is looking after what the user wants to know about the socket. */
  ghost predicate LookedAfter(s: Sock, queued: bool) {
    queued || s.status.Cancelled? || (s.status.Pending? && Uncovered(s.userEvents, s.pendingEvents) == 0)
  }

  ghost predicate Interest(socks: Socks, updateQ: seq<Addr>, except: set<Addr>) {
    forall a | a in socks && !socks[a].deletePending && a !in except :: LookedAfter(socks[a], a in updateQ)
  }

  ghost predicate Core(w: World) {
    !w.fault && Registered(w.socks, w.tree) && Queued(w.socks, w.updateQ, w.deletedQ) && Counted(w.socks, w.groups)
  }

  ghost predicate InvExcept(w: World, except: set<Addr>) {
    Core(w) && Flight(w.socks, w.inFlight) && Interest(w.socks, w.updateQ, except)
  }

  ghost predicate Inv(w: World) {
    InvExcept(w, {})
  }

  // ----- changing fields of one socket state

  predicate SamePlace(s: Sock, s': Sock) {
    s.socket == s'.socket && s.group == s'.group && s.deletePending == s'.deletePending
  }

  lemma {:induction false} UsersSame(socks: Socks, a: Addr, s: Sock, g: Groups)
    requires a in socks && socks[a].group == s.group && Counted(socks, g)
    ensures Counted(socks[a := s], g)
  {
    forall x | x in g.size
      ensures Users(socks[a := s], x) == Users(socks, x)
    {
    }
  }

  lemma {:induction false} RegisteredSame(socks: Socks, tree: map<Socket, Addr>, a: Addr, s: Sock)
    requires a in socks && SamePlace(socks[a], s) && Registered(socks, tree)
    ensures Registered(socks[a := s], tree)
  {
  }

  lemma {:induction false} QueuedSame(socks: Socks, updateQ: seq<Addr>, deletedQ: seq<Addr>, a: Addr, s: Sock)
    requires a in socks && SamePlace(socks[a], s) && Queued(socks, updateQ, deletedQ)
    ensures Queued(socks[a := s], updateQ, deletedQ)
  {
  }

  lemma {:induction false} FieldsCore(w: World, a: Addr, s: Sock)
    requires Core(w) && a in w.socks && SamePlace(w.socks[a], s)
    ensures Core(w.(socks := w.socks[a := s]))
  {
    hide Registered, Queued, Counted;
    UsersSame(w.socks, a, s, w.groups);
    RegisteredSame(w.socks, w.tree, a, s);
    QueuedSame(w.socks, w.updateQ, w.deletedQ, a, s);
  }

  // ----- freeing and allocating

  lemma {:induction false} UsersFreed(socks: Socks, a: Addr, g: Groups)
    requires a in socks && Counted(socks, g)
    ensures Releasable(g, socks[a].group) && Counted(socks - {a}, Release(g, socks[a].group))
  {
    var x := socks[a].group;
    assert a in Users(socks, x);
    ReleaseOk(g, x);
    forall y | y in g.size
      ensures |Users(socks - {a}, y)| == if y == x then g.size[y] - 1 else g.size[y]
    {
      assert Users(socks - {a}, y) == Users(socks, y) - {a};
    }
  }

  ghost predicate CountsMatch(socks: Socks, size: map<GroupId, nat>) {
    && (forall a | a in socks :: socks[a].group in size)
    && (forall x | x in size :: size[x] == |Users(socks, x)|)
  }

  lemma {:induction false} UsersPlus(socks: Socks, a: Addr, s: Sock, y: GroupId)
    requires a !in socks
    ensures |Users(socks[a := s], y)| == |Users(socks, y)| + (if y == s.group then 1 else 0)
  {
    if y == s.group {
      assert Users(socks[a := s], y) == Users(socks, y) + {a};
    } else {
      assert Users(socks[a := s], y) == Users(socks, y);
    }
  }

  lemma {:induction false} NoUsers(socks: Socks, y: GroupId)
    requires forall a | a in socks :: socks[a].group != y
    ensures |Users(socks, y)| == 0
  {
    assert Users(socks, y) == {};
  }

  lemma {:induction false} CountOne(socks: Socks, a: Addr, s: Sock, size: map<GroupId, nat>)
    requires a !in socks && CountsMatch(socks, size)
    ensures CountsMatch(socks[a := s], size[s.group := (if s.group in size then size[s.group] else 0) + 1])
  {
    hide Users;
    if s.group !in size {
      NoUsers(socks, s.group);
    }
    forall y | y in size || y == s.group
      ensures |Users(socks[a := s], y)| == |Users(socks, y)| + (if y == s.group then 1 else 0)
    {
      UsersPlus(socks, a, s, y);
    }
  }

  lemma {:induction false} UsersAdded(socks: Socks, a: Addr, s: Sock, g: Groups, created: Option<GroupId>)
    requires a !in socks && Counted(socks, g) && (created.Some? ==> created.value !in g.size)
    requires Acquire(g, created).1 == Some(s.group)
    ensures Counted(socks[a := s], Acquire(g, created).0)
  {
    hide Acquire, NeedsNew, Ok, Users;
    AcquireOk(g, created);
    CountOne(socks, a, s, g.size);
  }

  // ----- the queues

  lemma {:induction false} QueuedWithout(socks: Socks, updateQ: seq<Addr>, deletedQ: seq<Addr>, a: Addr)
    requires Queued(socks, updateQ, deletedQ)
    ensures Queued(socks - {a}, Without(updateQ, a), Without(deletedQ, a))
    ensures a in socks && !socks[a].deletePending ==>
      Queued(socks, Without(updateQ, a), deletedQ) && Without(deletedQ, a) == deletedQ
  {
    WithoutMembers(updateQ, a);
    WithoutMembers(deletedQ, a);
    WithoutDuplicates(updateQ, a);
    WithoutDuplicates(deletedQ, a);
  }

  lemma {:induction false} DequeuedCore(w: World, a: Addr)
    requires Core(w) && a in w.socks && !w.socks[a].deletePending
    ensures Core(Dequeued(w, a)) && Dequeued(w, a) == w.(updateQ := Without(w.updateQ, a))
  {
    hide Registered, Counted, Queued, Dequeued, Without;
    DequeuedQueues(w, a);
    QueuedWithout(w.socks, w.updateQ, w.deletedQ, a);
  }

  lemma {:induction false} RequestCore(w: World, a: Addr)
    requires Core(w) && a in w.socks && !w.socks[a].deletePending
    ensures var w' := RequestUpdate(w, a);
            && Core(w') && a in w'.updateQ && w' == w.(updateQ := w'.updateQ)
            && forall b :: b in w'.updateQ <==> b in w.updateQ || b == a
  {
    hide Registered, Counted;
    if a !in w.updateQ {
      AppendDuplicates(w.updateQ, a);
    }
  }

  // ----- deleting

  /** A socket state that has to wait has had its pending request cancelled, if the kernel agreed. */
  ghost predicate Waiting(s: Sock, s': Sock, cancelled: bool) {
    && s'.deletePending && s'.request == s.request && s'.userEvents == s.userEvents
    && (if s.status.Pending? && cancelled && !s.deletePending then s'.status.Cancelled? && s'.pendingEvents == 0
        else s'.status == s.status && s'.pendingEvents == s.pendingEvents)
  }

  lemma {:induction false} RetireEffect(w: World, a: Addr, cancelled: bool)
    requires Core(w) && a in w.socks && !w.socks[a].deletePending
    ensures var r, s := Retire(w, a, cancelled), w.socks[a];
      && a in r.socks && r.socks[a].deletePending && SamePlace(r.socks[a].(deletePending := false), s)
      && (r.socks[a].status.Idle? <==> s.status.Idle?) && Waiting(s, r.socks[a], cancelled)
      && r == w.(socks := w.socks[a := r.socks[a]], tree := w.tree - {s.socket}, updateQ := Without(w.updateQ, a))
  {
    hide Without, Queued, Counted, Dequeued, RetiredSock, SamePlace, Waiting;
    RetiredFields(w.socks[a], cancelled);
    QueuedWithout(w.socks, w.updateQ, w.deletedQ, a);
    DequeuedQueues(w, a);
  }

  lemma {:induction false} RetiredFields(s: Sock, cancelled: bool)
    requires !s.deletePending
    ensures var r := RetiredSock(s, cancelled);
      r.deletePending && SamePlace(r.(deletePending := false), s) && (r.status.Idle? <==> s.status.Idle?) &&
        Waiting(s, r, cancelled)
  {
  }

  /** What deleting does to everything but the socket state itself. */
  ghost predicate OnlyTouches(w: World, w': World, a: Addr) {
    && w'.socks - {a} == w.socks - {a}
    && (forall b | b != a :: b in w'.updateQ <==> b in w.updateQ)
    && w'.inFlight == w.inFlight && w'.open == w.open && w'.polls == w.polls
  }

  lemma {:induction false} RegisteredFreed(socks: Socks, tree: map<Socket, Addr>, a: Addr)
    requires a in socks && Registered(socks, tree)
    ensures socks[a].deletePending ==> Registered(socks - {a}, tree)
    ensures !socks[a].deletePending ==> Registered(socks - {a}, tree - {socks[a].socket})
  {
  }

  lemma {:induction false} RegisteredRetired(socks: Socks, tree: map<Socket, Addr>, a: Addr, s: Sock)
    requires a in socks && !socks[a].deletePending && Registered(socks, tree) && s.deletePending
    ensures Registered(socks[a := s], tree - {socks[a].socket})
  {
  }

  lemma {:induction false} QueuedRetired(socks: Socks, updateQ: seq<Addr>, deletedQ: seq<Addr>, a: Addr, s: Sock)
    requires a in socks && !socks[a].deletePending && Queued(socks, updateQ, deletedQ) && s.deletePending
    ensures Queued(socks[a := s], Without(updateQ, a), deletedQ + [a]) && a !in Without(updateQ, a) && a !in deletedQ
  {
    WithoutMembers(updateQ, a);
    WithoutDuplicates(updateQ, a);
    AppendDuplicates(deletedQ, a);
  }

  lemma {:induction false} FreeEffect(w: World, a: Addr)
    requires a in w.socks && Releasable(w.groups, w.socks[a].group)
    ensures FreeSock(w, a) ==
      w.(socks := w.socks - {a}, updateQ := Without(w.updateQ, a), deletedQ := Without(w.deletedQ, a),
         groups := Release(w.groups, w.socks[a].group))
  {
    hide Dequeued, Without, Release, Releasable;
    DequeuedQueues(w, a);
  }

  /** A socket state that was waiting to be deleted is freed. */
  lemma {:induction false} FreeCore(w: World, a: Addr)
    requires Core(w) && a in w.socks && w.socks[a].deletePending
    ensures Core(FreeSock(w, a)) && a !in FreeSock(w, a).socks && OnlyTouches(w, FreeSock(w, a), a)
  {
    hide Registered, Counted, Queued, Without, Releasable, Release, FreeSock;
    UsersFreed(w.socks, a, w.groups);
    RegisteredFreed(w.socks, w.tree, a);
    QueuedWithout(w.socks, w.updateQ, w.deletedQ, a);
    WithoutMembers(w.updateQ, a);
    FreeEffect(w, a);
  }

  /** A registered socket state is freed at once. */
  lemma {:induction false} RetireFreeCore(w: World, a: Addr, cancelled: bool)
    requires Core(w) && a in w.socks && !w.socks[a].deletePending
    ensures var w' := FreeSock(Retire(w, a, cancelled), a);
            Core(w') && a !in w'.socks && OnlyTouches(w, w', a)
  {
    hide Registered, Counted, Queued, Without, Releasable, Release, FreeSock, Retire;
    var r := Retire(w, a, cancelled);
    RetireEffect(w, a, cancelled);
    UsersFreed(w.socks, a, w.groups);
    RegisteredFreed(w.socks, w.tree, a);
    WithoutMembers(w.updateQ, a);
    WithoutMembers(Without(w.updateQ, a), a);
    QueuedWithout(w.socks, w.updateQ, w.deletedQ, a);
    FreeEffect(r, a);
    assert r.socks - {a} == w.socks - {a};
  }

  /** A registered socket state with a request under way waits on the deleted queue. */
  lemma {:induction false} RetireWaitCore(w: World, a: Addr, cancelled: bool)
    requires Core(w) && a in w.socks && !w.socks[a].deletePending
    ensures var w' := AddDeleted(Retire(w, a, cancelled), a);
      && Core(w') && a in w'.socks && Waiting(w.socks[a], w'.socks[a], cancelled)
      && (w'.socks[a].status.Idle? <==> w.socks[a].status.Idle?) && OnlyTouches(w, w', a)
  {
    hide Registered, Counted, Queued, Without, Retire;
    var r := Retire(w, a, cancelled);
    RetireEffect(w, a, cancelled);
    var s := r.socks[a];
    UsersSame(w.socks, a, s, w.groups);
    RegisteredRetired(w.socks, w.tree, a, s);
    QueuedRetired(w.socks, w.updateQ, w.deletedQ, a, s);
    WithoutMembers(w.updateQ, a);
    assert r.socks - {a} == w.socks - {a};
  }

  lemma {:induction false} AlreadyDeleted(w: World, a: Addr)
    requires Core(w) && a in w.socks && w.socks[a].deletePending
    ensures AddDeleted(w, a) == w
  {
  }

  /** The socket state is freed at once when forced or when no request is under way, and waits otherwise. */
  lemma {:induction false} DeleteCore(w: World, a: Addr, force: bool, cancelled: bool)
    requires Core(w) && a in w.socks
    ensures var w' := DeleteSock(w, a, force, cancelled);
      && Core(w') && OnlyTouches(w, w', a)
      && (a in w'.socks <==> !force && !w.socks[a].status.Idle?)
      && (a in w'.socks ==> Waiting(w.socks[a], w'.socks[a], cancelled) && !w'.socks[a].status.Idle?)
  {
    hide Registered, Counted, Queued, Retire, FreeSock;
    if w.socks[a].deletePending {
      FreeCore(w, a);
      AlreadyDeleted(w, a);
    } else {
      RetireEffect(w, a, cancelled);
      RetireFreeCore(w, a, cancelled);
      RetireWaitCore(w, a, cancelled);
    }
  }

  // ----- the other operations on one socket state

  lemma {:induction false} DeleteInv(w: World, a: Addr, cancelled: bool, except: set<Addr>)
    requires InvExcept(w, except) && a in w.socks
    ensures InvExcept(DeleteSock(w, a, false, cancelled), except - {a})
  {
    hide Core, DeleteSock;
    DeleteCore(w, a, false, cancelled);
    var w' := DeleteSock(w, a, false, cancelled);
    forall b | b != a
      ensures b in w'.socks <==> b in w.socks
      ensures b in w.socks ==> w'.socks[b] == w.socks[b]
    {
      assert b in w.socks - {a} <==> b in w.socks;
      assert b in w'.socks - {a} <==> b in w'.socks;
    }
  }

  /** A socket state that is still registered changes its request or its mask, and nothing else changes hands. */
  lemma {:induction false} FieldsInv(w: World, a: Addr, s: Sock, except: set<Addr>)
    requires InvExcept(w, except) && a in w.socks && SamePlace(w.socks[a], s) &&
      (s.status.Idle? <==> w.socks[a].status.Idle?) && Watching(s) && WantsErrors(s)
    ensures InvExcept(w.(socks := w.socks[a := s]), except + {a})
  {
    hide Core, LookedAfter, WantsErrors;
    FieldsCore(w, a, s);
  }

  lemma {:induction false} RequestInv(w: World, a: Addr, except: set<Addr>)
    requires InvExcept(w, except) && a in w.socks && !w.socks[a].deletePending
    ensures InvExcept(RequestUpdate(w, a), except - {a}) && RequestUpdate(w, a).socks == w.socks
  {
    hide Core, RequestUpdate;
    RequestCore(w, a);
  }

  lemma {:induction false} ErrorsWanted(events: bv32)
    ensures (events | EPOLLERR | EPOLLHUP) & EPOLLERR != 0 && (events | EPOLLERR | EPOLLHUP) & EPOLLHUP != 0
  {
  }

  lemma {:induction false} SetEventInv(w: World, a: Addr, events: bv32, data: int)
    requires Inv(w) && a in w.socks && !w.socks[a].deletePending
    ensures Inv(SetEvent(w, a, events, data))
  {
    hide Core, Uncovered;
    var s := w.socks[a].(userEvents := events | EPOLLERR | EPOLLHUP, userData := data);
    var w1 := w.(socks := w.socks[a := s]);
    ErrorsWanted(events);
    FieldsInv(w, a, s, {});
    if Uncovered(s.userEvents, s.pendingEvents) == 0 {
      assert LookedAfter(w.socks[a], a in w.updateQ);
      assert LookedAfter(s, a in w1.updateQ);
    } else {
      RequestInv(w1, a, {a});
      assert {a} - {a} == {};
    }
  }

  /** A new socket state gets on the update queue with its first event mask. */
  lemma {:induction false} SetEventNew(w: World, a: Addr, events: bv32, data: int)
    requires InvExcept(w, {a}) && a in w.socks && !w.socks[a].deletePending
    requires w.socks[a].status.Idle? && w.socks[a].pendingEvents == 0
    ensures Inv(SetEvent(w, a, events, data))
  {
    hide Core, Uncovered;
    var s := w.socks[a].(userEvents := events | EPOLLERR | EPOLLHUP, userData := data);
    ErrorsWanted(events);
    FieldsInv(w, a, s, {a});
    Wanted(events);
    RequestInv(w.(socks := w.socks[a := s]), a, {a});
    assert {a} + {a} == {a} && {a} - {a} == {};
  }

  // ----- updating and feeding

  lemma {:induction false} DequeuedInv(w: World, a: Addr)
    requires InvExcept(w, {}) && a in w.socks && !w.socks[a].deletePending && LookedAfter(w.socks[a], false)
    ensures Inv(Dequeued(w, a))
  {
    hide Core, Dequeued, Without, LookedAfter;
    DequeuedCore(w, a);
    WithoutMembers(w.updateQ, a);
    forall b | b in w.socks && !w.socks[b].deletePending
      ensures LookedAfter(w.socks[b], b in Without(w.updateQ, a))
    {
      if b != a {
        assert LookedAfter(w.socks[b], b in w.updateQ);
      }
    }
  }

  lemma {:induction false} SubmitInv(w: World, a: Addr)
    requires Inv(w) && a in w.socks && !w.socks[a].deletePending && w.socks[a].status.Idle?
    ensures Inv(Dequeued(Submit(w, a), a))
  {
    hide Core, Dequeued, Uncovered;
    var s := w.socks[a].(request := ToAfd(w.socks[a].userEvents), status := Pending,
      pendingEvents := w.socks[a].userEvents);
    var w1 := Submit(w, a);
    FieldsCore(w, a, s);
    CoreIgnores(w.(socks := w.socks[a := s]), w1);
    FullyCovered(s.userEvents);
    DequeuedInv(w1, a);
  }

  lemma {:induction false} CoreIgnores(w: World, w': World)
    requires Core(w) && w' == w.(inFlight := w'.inFlight, polls := w'.polls, open := w'.open)
    ensures Core(w')
  {
    hide Registered, Queued, Counted;
  }

  lemma {:induction false} CancelInv(w: World, a: Addr)
    requires Inv(w) && a in w.socks && !w.socks[a].deletePending && w.socks[a].status.Pending?
    ensures Inv(Dequeued(CancelPoll(w, a, true), a))
  {
    hide Core, Dequeued, Uncovered;
    var s := CancelledSock(w.socks[a], true);
    var w1 := CancelPoll(w, a, true);
    FieldsInv(w, a, s, {});
    assert Interest(w1.socks, w1.updateQ, {});
    DequeuedInv(w1, a);
  }

  lemma {:induction false} UpdateSockInv(w: World, a: Addr, answer: Answer)
    requires Inv(w) && a in w.updateQ
    ensures Inv(UpdateSock(w, a, answer).0)
  {
    hide Core, Dequeued, CancelPoll, Submit, DeleteSock, Uncovered, Flight;
    QueuedMember(w, a);
    var s := w.socks[a];
    if s.status.Pending? && Uncovered(s.userEvents, s.pendingEvents) == 0 {
      DequeuedInv(w, a);
    } else if s.status.Pending? {
      CancelInv(w, a);
    } else if s.status.Cancelled? {
      DequeuedInv(w, a);
    } else {
      DeleteInv(w, a, answer.cancelled, {});
      assert {} - {a} == {};
      SubmitInv(w, a);
    }
  }

  lemma {:induction false} QueuedMember(w: World, a: Addr)
    requires Core(w) && a in w.updateQ
    ensures a in w.socks && !w.socks[a].deletePending
  {
  }

  lemma {:induction false} CompletedInv(w: World, a: Addr)
    requires Inv(w) && a in w.inFlight
    ensures a in w.socks && InvExcept(Completed(w, a), {a}) && a in Completed(w, a).socks
  {
    hide Core, Uncovered;
    var s := w.socks[a].(status := Idle, pendingEvents := 0);
    FieldsCore(w, a, s);
    CoreIgnores(w.(socks := w.socks[a := s]), Completed(w, a));
  }

  lemma {:induction false} FeedEventInv(w: World, c: Completion)
    requires Inv(w) && c.addr in w.inFlight
    ensures Inv(FeedEvent(w, c).0)
    ensures FeedEvent(w, c).0.inFlight == w.inFlight - {c.addr}
  {
    hide Core, DeleteSock, RequestUpdate, RawEvents, Deliver, Flight, Interest;
    var a := c.addr;
    CompletedInv(w, a);
    var w1 := Completed(w, a);
    assert {a} - {a} == {};
    DeleteInv(w1, a, false, {a});
    DeleteCore(w1, a, false, false);
    if !w1.socks[a].deletePending {
      RequestInv(w1, a, {a});
      RequestCore(w1, a);
      DeliverInv(RequestUpdate(w1, a), a, RawEvents(c.outcome));
    }
  }

  lemma {:induction false} WatchingAt(w: World, a: Addr)
    requires Inv(w) && a in w.socks
    ensures Watching(w.socks[a])
  {
    hide Core, Interest;
  }

  lemma {:induction false} DeliverInv(w: World, a: Addr, raw: bv32)
    requires Inv(w) && a in w.updateQ && a in w.socks
    ensures Inv(Deliver(w, a, raw).0) && Deliver(w, a, raw).0.inFlight == w.inFlight
  {
    hide Core, Uncovered, Flight;
    WatchingAt(w, a);
    FieldsInv(w, a, w.socks[a].(userEvents := 0), {});
  }

  // ----- the loops

  lemma {:induction false} UpdateAllInv(w: World, answers: seq<Answer>)
    requires Inv(w) && |w.updateQ| <= |answers|
    ensures var (w', ok) := UpdateAll(w, answers);
            Inv(w') && w'.open == w.open && w'.polls == w.polls && (ok ==> w'.updateQ == [])
    decreases |w.updateQ|
  {
    hide Inv, UpdateSock, Without;
    if w.updateQ != [] {
      var a := w.updateQ[0];
      UpdateSockInv(w, a, answers[0]);
      UpdateSockKeeps(w, a, answers[0]);
      var (next, ok) := UpdateSock(w, a, answers[0]);
      if ok {
        UpdateDequeues(w, a, answers[0]);
        WithoutMembers(w.updateQ, a);
        UpdateAllInv(next, answers[1..]);
      }
    }
  }

  lemma {:induction false} UpdateSockKeeps(w: World, a: Addr, answer: Answer)
    requires Inv(w) && a in w.updateQ
    ensures UpdateSock(w, a, answer).0.open == w.open && UpdateSock(w, a, answer).0.polls == w.polls
  {
    hide Core, DeleteSock, Without, Uncovered, Dequeued, CancelPoll, Submit, Flight, Interest;
    QueuedMember(w, a);
    if w.socks[a].status.Idle? {
      DeleteCore(w, a, false, answer.cancelled);
    }
  }

  lemma {:induction false} FeedAllInv(w: World, cs: seq<Completion>)
    requires Inv(w) && Distinct(cs) && AllInFlight(w, cs)
    ensures Inv(FeedAll(w, cs).0)
    decreases |cs|
  {
    hide Inv, FeedEvent;
    if cs != [] {
      FeedEventInv(w, cs[0]);
      FeedAllInv(FeedEvent(w, cs[0]).0, cs[1..]);
    }
  }

  ghost predicate AllInFlight(w: World, cs: seq<Completion>) {
    forall c | c in cs :: c.addr in w.inFlight
  }

  /** Each submitted request completes once. */
  ghost predicate Distinct(cs: seq<Completion>)
    decreases |cs|
  {
    cs == [] || ((forall c | c in cs[1..] :: c.addr != cs[0].addr) && Distinct(cs[1..]))
  }

  // ----- new socket states

  lemma {:induction false} AcquireReleaseCounted(socks: Socks, g: Groups, created: Option<GroupId>)
    requires Counted(socks, g) && (created.Some? ==> created.value !in g.size) && Acquire(g, created).1.Some?
    ensures var (g', x) := Acquire(g, created);
            Releasable(g', x.value) && Counted(socks, Release(g', x.value))
  {
    hide Acquire, Release, Ok, NeedsNew;
    var (g', x) := Acquire(g, created);
    AcquireOk(g, created);
    ReleaseOk(g', x.value);
    if x.value !in g.size {
      NoUsers(socks, x.value);
    }
    hide Users;
  }

  lemma {:induction false} RegisteredAdded(socks: Socks, tree: map<Socket, Addr>, a: Addr, s: Sock)
    requires a !in socks && s.socket !in tree && !s.deletePending && Registered(socks, tree)
    ensures Registered(socks[a := s], tree[s.socket := a])
  {
  }

  lemma {:induction false} QueuedAdded(socks: Socks, updateQ: seq<Addr>, deletedQ: seq<Addr>, a: Addr, s: Sock)
    requires a !in socks && !s.deletePending && Queued(socks, updateQ, deletedQ)
    ensures Queued(socks[a := s], updateQ, deletedQ)
  {
  }

  /** A new group is asked for although the port has been closed: the assertion on the port's handle fails. */
  predicate HandleGone(w: World, socket: Socket, supply: Supply) {
    socket != 0 && socket != INVALID_SOCKET && supply.base && NeedsNew(w.groups) && !w.open
  }

  /** Memory that is handed out is not in use. */
  ghost predicate Fresh(w: World, supply: Supply) {
    (supply.group.Some? ==> supply.group.value !in w.groups.size) &&
      (supply.sock.Some? ==> supply.sock.value !in w.socks)
  }

  lemma {:induction false} NewSockInv(w: World, socket: Socket, supply: Supply)
    requires Inv(w) && Fresh(w, supply) && !HandleGone(w, socket, supply)
    ensures var (w', a) := NewSock(w, socket, supply);
      && (a.None? ==> Inv(w') && w'.updateQ == w.updateQ)
      && (a.Some? ==> InvExcept(w', {a.value}) && w'.updateQ == w.updateQ && a.value !in w.socks && socket !in w.tree &&
                      w'.socks == w.socks[a.value := w'.socks[a.value]] && w'.inFlight == w.inFlight &&
                      w'.socks[a.value] == Sock(socket, w'.socks[a.value].group, 0, 0, 0, 0, Idle, false))
  {
    hide Registered, Queued, Counted, Flight, Interest, Acquire, Release, NeedsNew, Releasable;
    if socket != 0 && socket != INVALID_SOCKET && supply.base {
      var (g, x) := Acquire(w.groups, supply.group);
      if x.Some? {
        AcquireReleaseCounted(w.socks, w.groups, supply.group);
        if supply.sock.Some? && socket !in w.tree {
          NewSockAdded(w, socket, supply);
        }
      } else {
        AcquireFails(w.groups, supply.group);
      }
    }
  }

  lemma {:induction false} AcquireFails(g: Groups, created: Option<GroupId>)
    ensures Acquire(g, created).1.None? ==> Acquire(g, created).0 == g
  {
  }

  lemma {:induction false} NewSockAdded(w: World, socket: Socket, supply: Supply)
    requires Inv(w) && Fresh(w, supply) && Acquire(w.groups, supply.group).1.Some?
    requires supply.sock.Some? && socket !in w.tree
    ensures var a := supply.sock.value;
            var s := Sock(socket, Acquire(w.groups, supply.group).1.value, 0, 0, 0, 0, Idle, false);
            InvExcept(w.(groups := Acquire(w.groups, supply.group).0, socks := w.socks[a := s],
              tree := w.tree[socket := a]), {a})
  {
    hide Registered, Queued, Counted, Acquire;
    var a, s := supply.sock.value, Sock(socket, Acquire(w.groups, supply.group).1.value, 0, 0, 0, 0, Idle, false);
    UsersAdded(w.socks, a, s, w.groups, supply.group);
    RegisteredAdded(w.socks, w.tree, a, s);
    QueuedAdded(w.socks, w.updateQ, w.deletedQ, a, s);
  }
}
