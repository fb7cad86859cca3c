/** The port itself, updated in place under its lock.  Each method does to the fields what the corresponding
    function of PortModel does to the state, so that everything proved about runs holds of it. */
module Port {
  import opened PollEvents
  import opened PollGroups
  import opened Sequences
  import opened PortModel
  import opened PortInvariants
  import opened PortRuns
  import opened PortInterest

  // ----- tearing down: what the loops of Delete keep

  /** Between `w0` and `w` exactly the socket states listed in `gone` were given back, each once. */
  ghost predicate Draining(w0: World, w: World, gone: seq<Addr>) {
    && Core(w) && w.socks.Keys <= w0.socks.Keys
    && NoDuplicates(gone) && forall a :: a in gone <==> a in w0.socks && a !in w.socks
  }

  lemma {:induction false} DrainStep(w0: World, w: World, gone: seq<Addr>, a: Addr, cancelled: bool)
    requires Draining(w0, w, gone) && a in w.socks
    ensures var w' := DeleteSock(w, a, true, cancelled);
            Draining(w0, w', gone + [a]) && w'.socks == w.socks - {a} && |w'.socks| < |w.socks|
  {
    hide Core, DeleteSock;
    DeleteCore(w, a, true, cancelled);
    AppendDuplicates(gone, a);
    var w' := DeleteSock(w, a, true, cancelled);
    assert w'.socks == w'.socks - {a};
    assert w'.socks.Keys == w.socks.Keys - {a};
  }

  /** What is in the tree or on the deleted queue is allocated. */
  lemma {:induction false} Reachable(w: World)
    requires Core(w)
    ensures forall k | k in w.tree :: w.tree[k] in w.socks
    ensures forall a | a in w.deletedQ :: a in w.socks
    ensures w.updateQ != [] ==> w.updateQ[0] in w.socks
    ensures forall a | a in w.socks && w.socks[a].deletePending :: a in w.deletedQ
    ensures w.tree == map[] ==> AllPending(w.socks)
  {
    hide Counted;
  }

  lemma {:induction false} DrainStart(w: World)
    requires Core(w)
    ensures Draining(w, w, [])
  {
    hide Core;
  }

  lemma {:induction false} DrainFacts(w0: World, w: World, gone: seq<Addr>)
    requires Draining(w0, w, gone)
    ensures forall k | k in w.tree :: w.tree[k] in w.socks
    ensures forall a | a in w.deletedQ :: a in w.socks
    ensures !w.fault && NoDuplicates(gone)
    ensures w.tree == map[] ==> AllPending(w.socks)
    ensures AllPending(w.socks) && w.deletedQ == [] ==>
      && w.socks == map[] && w.tree == map[] && w.updateQ == [] && Unused(w.groups)
      && forall a :: a in gone <==> a in w0.socks
  {
    hide Unused, Registered, Queued, Counted, AllPending;
    Reachable(w);
    if AllPending(w.socks) && w.deletedQ == [] {
      Drained(w);
    }
  }

  ghost predicate Unused(g: Groups) {
    NoDuplicates(g.order) && (forall x :: x in g.order <==> x in g.size) && forall x | x in g.size :: g.size[x] == 0
  }

  ghost predicate AllPending(socks: Socks) {
    forall a | a in socks :: socks[a].deletePending
  }

  /** Once every socket state is waiting to be deleted and none waits any more, no group is used. */
  lemma {:induction false} Drained(w: World)
    requires Core(w) && AllPending(w.socks) && w.deletedQ == []
    ensures w.socks == map[] && w.tree == map[] && w.updateQ == [] && Unused(w.groups)
  {
    Reachable(w);
    assert w.socks == map[];
    assert w.tree == map[];
    forall x | x in w.groups.size
      ensures w.groups.size[x] == 0
    {
      NoUsers(w.socks, x);
    }
  }

  lemma {:induction false} UnusedStep(g: Groups)
    requires Unused(g) && g.order != []
    ensures var x := g.order[0];
            x in g.size && g.size[x] == 0 && Unused(Groups(Without(g.order, x), g.size - {x})) &&
              |g.size - {x}| < |g.size|
  {
    var x := g.order[0];
    assert x in g.order;
    WithoutMembers(g.order, x);
    WithoutDuplicates(g.order, x);
    assert (g.size - {x}).Keys == g.size.Keys - {x};
  }

  lemma {:induction false} NoneLeft(g: Groups)
    requires Unused(g) && g.order == []
    ensures g == NO_GROUPS
  {
    assert g.size == map[];
  }

  /** What the caller and the surroundings of an operation owe, and the one misuse that makes an assertion fail. */
  ghost predicate Fine(w: World, op: Operation) {
    Possible(w, op) && !AddAfterClose(w, op)
  }

  lemma {:induction false} Kept(w: World, op: Operation)
    requires Answered(w, op)
    ensures Inv(w) && Fine(w, op) ==> Inv(Perform(w, op).0)
  {
    hide Inv, Possible, Perform, AddAfterClose;
    if Inv(w) && Fine(w, op) {
      PerformInv(w, op);
    }
  }

  lemma {:induction false} UpdateKept(w: World, answers: seq<Answer>)
    requires |w.updateQ| <= |answers|
    ensures Inv(w) ==> Inv(UpdateIfPolling(w, answers))
  {
    hide Inv, UpdateIfPolling;
    if Inv(w) {
      UpdateIfPollingInv(w, answers);
    }
  }

  lemma {:induction false} AddKept(w: World, socket: Socket, supply: Supply)
    ensures Inv(w) ==> (NewSock(w, socket, supply).1.Some? <==> CanAdd(w, socket, supply))
  {
    hide Inv, NewSock, CanAdd;
    if Inv(w) {
      AddedExactly(w, socket, supply);
    }
  }

  lemma {:induction false} ListKept(w: World, socket: Socket)
    ensures Inv(w) ==> (socket in Registrations(w) <==> socket in w.tree)
  {
    hide Inv, Registrations;
    if Inv(w) {
      Listed(w, socket);
    }
  }

  lemma {:induction false} NewPortInv()
    ensures Inv(START)
  {
  }

  class Port {
    var socks: map<Addr, Sock>
    var tree: map<Socket, Addr>
    var updateQ: seq<Addr>
    var deletedQ: seq<Addr>
    var groups: Groups
    var open: bool
    var polls: nat
    ghost var inFlight: set<Addr>   // requests the kernel has not completed
    ghost var fault: bool           // an assertion failed or freed memory was touched
    ghost var freed: seq<Addr>      // every address given back, in order

    constructor ()
      ensures State() == START && freed == [] && Valid()
    {
      NewPortInv();
      hide Inv;
      socks, tree, updateQ, deletedQ := map[], map[], [], [];
      groups, open, polls := NO_GROUPS, true, 0;
      inFlight, fault, freed := {}, false, [];
    }

    ghost function State(): World
      reads this
    {
      World(socks, tree, updateQ, deletedQ, groups, inFlight, open, polls, fault)
    }

    /** What every operation under the lock keeps. */
    ghost predicate Valid()
      reads this
    {
      Inv(State())
    }

    // ----- queues

    method RemoveFromQueue(a: Addr)
      modifies this`updateQ, this`deletedQ
      ensures State() == old(State()).(updateQ := Without(old(updateQ), a), deletedQ := Without(old(deletedQ), a))
    {
      updateQ := Without(updateQ, a);
      deletedQ := Without(deletedQ, a);
    }

    method CancelSocketUpdate(a: Addr)
      modifies this`updateQ, this`deletedQ
      ensures State() == Dequeued(old(State()), a)
    {
      if a !in updateQ && a !in deletedQ {
        return;
      }
      RemoveFromQueue(a);
    }

    method RequestSocketUpdate(a: Addr)
      modifies this`updateQ
      ensures State() == RequestUpdate(old(State()), a)
    {
      if a in updateQ || a in deletedQ {
        return;
      }
      updateQ := updateQ + [a];
    }

    method AddDeletedSocket(a: Addr)
      modifies this`deletedQ
      ensures State() == AddDeleted(old(State()), a)
    {
      if a in updateQ || a in deletedQ {
        return;
      }
      deletedQ := deletedQ + [a];
    }

    // ----- poll groups

    method AcquireSlot(created: Option<GroupId>) returns (x: Option<GroupId>)
      modifies this`groups, this`fault
      ensures (State(), x) == AcquireGroup(old(State()), created)
    {
      var last := if groups.order != [] then Some(groups.order[|groups.order| - 1]) else None;
      if last.None? || Count(groups, last.value) >= MAX_GROUP_SIZE {
        if !open {
          fault := true;
          return None;
        }
        if created.None? {
          return None;
        }
        last := created;
        groups := Groups(groups.order + [last.value], groups.size[last.value := 0]);
      }
      var n := Count(groups, last.value) + 1;
      groups := groups.(size := groups.size[last.value := n]);
      if n == MAX_GROUP_SIZE {
        groups := groups.(order := [last.value] + Without(groups.order, last.value));
      }
      x := last;
    }

    method ReleaseSlot(x: GroupId)
      modifies this`groups, this`fault
      ensures State() == ReleaseGroup(old(State()), x)
    {
      if !(x in groups.size && 0 < groups.size[x] <= MAX_GROUP_SIZE) {
        fault := true;
        return;
      }
      groups := groups.(size := groups.size[x := groups.size[x] - 1]);
      groups := groups.(order := Without(groups.order, x) + [x]);
    }

    // ----- socket states

    method CancelSockPoll(a: Addr, cancelled: bool)
      requires a in socks
      modifies this`socks, this`fault
      ensures State() == CancelPoll(old(State()), a, cancelled)
    {
      if !socks[a].status.Pending? {
        fault := true;
        return;
      }
      if !cancelled {
        return;
      }
      socks := socks[a := socks[a].(status := Cancelled)];
      socks := socks[a := socks[a].(pendingEvents := 0)];
    }

    method UnregisterSocket(a: Addr)
      requires a in socks
      modifies this`tree, this`fault
      ensures State() == Unregister(old(State()), a)
    {
      var key := socks[a].socket;
      if key in tree && tree[key] == a {
        tree := tree - {key};
      } else {
        fault := true;
      }
    }

    method DeleteSocket(a: Addr, force: bool, cancelled: bool)
      modifies this`socks, this`tree, this`updateQ, this`deletedQ, this`groups, this`fault, this`freed
      ensures State() == DeleteSock(old(State()), a, force, cancelled)
      ensures freed == old(freed) + (if a in old(socks) && a !in socks then [a] else [])
    {
      hide Dequeued, ReleaseGroup, Unregister, CancelPoll;
      if a !in socks {
        fault := true;
        return;
      }
      if !socks[a].deletePending {
        RetireSocket(a, cancelled);
      }
      if force || socks[a].status.Idle? {
        CancelSocketUpdate(a);
        ReleaseSlot(socks[a].group);
        socks := socks - {a};
        freed := freed + [a];
      } else {
        AddDeletedSocket(a);
      }
    }

    method RetireSocket(a: Addr, cancelled: bool)
      requires a in socks
      modifies this`socks, this`tree, this`updateQ, this`deletedQ, this`fault
      ensures State() == Retire(old(State()), a, cancelled)
    {
      hide Dequeued, Unregister, CancelPoll, Retire;
      RetireSteps(State(), a, cancelled);
      if socks[a].status.Pending? {
        CancelSockPoll(a, cancelled);
      }
      CancelSocketUpdate(a);
      UnregisterSocket(a);
      ghost var w2 := State();
      socks := socks[a := socks[a].(deletePending := true)];
      assert State() == w2.(socks := w2.socks[a := w2.socks[a].(deletePending := true)]);
    }

    method SetSocketEvent(a: Addr, events: bv32, data: int)
      modifies this`socks, this`updateQ, this`fault
      ensures State() == SetEvent(old(State()), a, events, data)
    {
      hide Uncovered, RequestUpdate;
      if a !in socks {
        fault := true;
        return;
      }
      var wanted := events | EPOLLERR | EPOLLHUP;
      socks := socks[a := socks[a].(userEvents := wanted, userData := data)];
      if Uncovered(wanted, socks[a].pendingEvents) != 0 {
        RequestSocketUpdate(a);
      }
    }

    /** Submits, cancels or leaves alone the request of one socket, and takes it off the update queue. */
    method UpdateSocket(a: Addr, answer: Answer) returns (ok: bool)
      modifies this`socks, this`tree, this`updateQ, this`deletedQ, this`groups, this`inFlight, this`fault, this`freed
      ensures (State(), ok) == UpdateSock(old(State()), a, answer)
    {
      hide Uncovered, Dequeued, DeleteSock;
      if a !in socks || socks[a].deletePending {
        fault := true;
        return false;
      }
      var s := socks[a];
      if s.status.Pending? && Uncovered(s.userEvents, s.pendingEvents) == 0 {
      } else if s.status.Pending? {
        CancelSockPoll(a, answer.cancelled);
        if !answer.cancelled {
          assert socks == old(socks);
          return false;
        }
      } else if s.status.Cancelled? {
      } else {
        match answer.poll {
          case InvalidHandle =>
            DeleteSocket(a, false, answer.cancelled);
            return true;
          case OtherError =>
            return false;
          case Submitted =>
            inFlight := inFlight + {a};
            socks := socks[a := s.(request := ToAfd(s.userEvents), status := Pending, pendingEvents := s.userEvents)];
        }
      }
      CancelSocketUpdate(a);
      ok := true;
    }

    method FeedSocketEvent(c: Completion) returns (r: Option<Report>)
      modifies this`socks, this`tree, this`updateQ, this`deletedQ, this`groups, this`inFlight, this`fault, this`freed
      ensures (State(), r) == FeedEvent(old(State()), c)
    {
      hide DeleteSock, RequestUpdate, RawEvents, Deliver;
      var a := c.addr;
      if a !in socks {
        fault := true;
        return None;
      }
      inFlight := inFlight - {a};
      socks := socks[a := socks[a].(status := Idle, pendingEvents := 0)];
      if socks[a].deletePending || (c.outcome.Happened? && c.outcome.events & AFD_LOCAL_CLOSE != 0) {
        DeleteSocket(a, false, false);
        return None;
      }
      RequestSocketUpdate(a);
      r := DeliverEvents(a, RawEvents(c.outcome));
    }

    method DeliverEvents(a: Addr, raw: bv32) returns (r: Option<Report>)
      requires a in socks
      modifies this`socks
      ensures State() == Deliver(old(State()), a, raw).0 && r == Deliver(old(State()), a, raw).1
    {
      hide Filtered, IsOneShot;
      var s := socks[a];
      var events := Filtered(raw, s.userEvents);
      if events == 0 {
        return None;
      }
      if IsOneShot(s.userEvents) {
        socks := socks[a := s.(userEvents := 0)];
      }
      r := Some(Report(a, s.userData, events));
    }

    // ----- loops of the port

    /** Works off the update queue; stops at the first failure. */
    method UpdateEvents(answers: seq<Answer>) returns (ok: bool)
      requires |updateQ| <= |answers|
      modifies this`socks, this`tree, this`updateQ, this`deletedQ, this`groups, this`inFlight, this`fault, this`freed
      ensures (State(), ok) == UpdateAll(old(State()), answers)
      ensures ok ==> updateQ == []
    {
      hide UpdateSock, Without;
      var i := 0;
      while updateQ != []
        invariant i <= |answers| && |updateQ| <= |answers| - i
        invariant UpdateAll(State(), answers[i..]) == UpdateAll(old(State()), answers)
        decreases |updateQ|
      {
        ghost var w, rest := State(), answers[i..];
        assert rest[1..] == answers[i + 1..];
        WithoutMembers(updateQ, updateQ[0]);
        var done := UpdateSocket(updateQ[0], answers[i]);
        if !done {
          return false;
        }
        UpdateDequeues(w, w.updateQ[0], answers[i]);
        i := i + 1;
      }
      ok := true;
    }

    method UpdateEventsIfPolling(answers: seq<Answer>)
      requires |updateQ| <= |answers|
      modifies this`socks, this`tree, this`updateQ, this`deletedQ, this`groups, this`inFlight, this`fault, this`freed
      ensures State() == UpdateIfPolling(old(State()), answers)
      ensures old(Valid()) ==> Valid()
    {
      hide Inv, UpdateAll;
      UpdateKept(State(), answers);
      if polls > 0 {
        var _ := UpdateEvents(answers);
      }
    }

    /** Writes the reports of a batch of completions to the front of the user's buffer, and nothing behind them. */
    method FeedEvents(completions: seq<Completion>, events: array<Report>) returns (n: nat)
      requires |completions| <= events.Length
      modifies this`socks, this`tree, this`updateQ, this`deletedQ, this`groups, this`inFlight, this`fault, this`freed,
        events
      ensures n <= |completions|
      ensures State() == FeedAll(old(State()), completions).0 && events[..n] == FeedAll(old(State()), completions).1
      ensures forall k | n <= k < events.Length :: events[k] == old(events[k])
    {
      hide FeedEvent;
      n := 0;
      assert completions[0..] == completions;
      for i := 0 to |completions|
        invariant n <= i
        invariant FeedAll(old(State()), completions).0 == FeedAll(State(), completions[i..]).0
        invariant FeedAll(old(State()), completions).1 == events[..n] + FeedAll(State(), completions[i..]).1
        invariant forall k | n <= k < events.Length :: events[k] == old(events[k])
      {
        ghost var rest, done := completions[i..], events[..n];
        assert rest[1..] == completions[i + 1..];
        var r := FeedSocketEvent(completions[i]);
        ghost var more := FeedAll(State(), rest[1..]).1;
        assert FeedAll(old(State()), completions).1 == done + ((if r.Some? then [r.value] else []) + more);
        if r.Some? {
          events[n] := r.value;
          n := n + 1;
          assert events[..n] == done + [r.value];
          assert done + ([r.value] + more) == (done + [r.value]) + more;
        }
      }
      assert completions[|completions|..] == [];
    }

    // ----- the operations under the lock

    method NewSocket(socket: Socket, supply: Supply) returns (a: Option<Addr>)
      modifies this`socks, this`tree, this`groups, this`fault
      ensures (State(), a) == NewSock(old(State()), socket, supply)
      ensures old(Valid()) ==> (a.Some? <==> old(CanAdd(State(), socket, supply)))
    {
      hide Inv, AcquireGroup, ReleaseGroup, CanAdd;
      AddKept(State(), socket, supply);
      if socket == 0 || socket == INVALID_SOCKET || !supply.base {
        return None;
      }
      var group := AcquireSlot(supply.group);
      if group.None? {
        return None;
      }
      if supply.sock.None? || socket in tree {
        ReleaseSlot(group.value);
        return None;
      }
      a := supply.sock;
      socks := socks[a.value := Sock(socket, group.value, 0, 0, 0, 0, Idle, false)];
      tree := tree[socket := a.value];
    }

    method AddSocket(socket: Socket, events: bv32, data: int, supply: Supply, answers: seq<Answer>) returns (ok: bool)
      requires |updateQ| + 1 <= |answers|
      modifies this
      ensures State() == Perform(old(State()), Add(socket, events, data, supply, answers)).0
      ensures old(Valid() && Fine(State(), Add(socket, events, data, supply, answers))) ==> Valid()
      ensures old(Valid()) ==> (ok <==> old(CanAdd(State(), socket, supply)))
    {
      hide Inv, Fine, CanAdd, NewSock, SetEvent, UpdateIfPolling;
      Kept(State(), Add(socket, events, data, supply, answers));
      NewSockQueue(State(), socket, supply);
      var a := NewSocket(socket, supply);
      ok := a.Some?;
      if ok {
        SetEventKeeps(State(), a.value, events, data);
        SetSocketEvent(a.value, events, data);
        UpdateEventsIfPolling(answers);
      }
    }

    method ModifySocket(socket: Socket, events: bv32, data: int, answers: seq<Answer>) returns (ok: bool)
      requires |updateQ| + 1 <= |answers|
      modifies this
      ensures State() == Perform(old(State()), Modify(socket, events, data, answers)).0
      ensures old(Valid() && Fine(State(), Modify(socket, events, data, answers))) ==> Valid()
      ensures old(Valid()) ==> (ok <==> old(socket in Registrations(State())))
    {
      hide Inv, Fine, Registrations, SetEvent, UpdateIfPolling;
      Kept(State(), Modify(socket, events, data, answers));
      ListKept(State(), socket);
      ok := socket in tree;
      if ok {
        SetEventKeeps(State(), tree[socket], events, data);
        SetSocketEvent(tree[socket], events, data);
        UpdateEventsIfPolling(answers);
      }
    }

    method RemoveSocket(socket: Socket, cancelled: bool) returns (ok: bool)
      modifies this
      ensures State() == Perform(old(State()), Remove(socket, cancelled)).0
      ensures old(Valid() && Fine(State(), Remove(socket, cancelled))) ==> Valid()
      ensures old(Valid()) ==> (ok <==> old(socket in Registrations(State())))
    {
      hide Inv, Fine, Registrations, DeleteSock;
      Kept(State(), Remove(socket, cancelled));
      ListKept(State(), socket);
      ok := socket in tree;
      if ok {
        DeleteSocket(tree[socket], false, cancelled);
      }
    }

    method BeginPoll(answers: seq<Answer>) returns (ok: bool)
      requires |updateQ| <= |answers|
      modifies this
      ensures State() == Perform(old(State()), PollBegin(answers)).0
      ensures old(Valid() && Fine(State(), PollBegin(answers))) ==> Valid()
      ensures ok == UpdateAll(old(State()), answers).1
    {
      hide Inv, Fine, UpdateAll;
      Kept(State(), PollBegin(answers));
      ok := UpdateEvents(answers);
      if ok {
        polls := polls + 1;
      }
    }

    method EndPoll(dequeued: bool, completions: seq<Completion>, events: array<Report>) returns (n: nat)
      requires polls > 0 && |completions| <= events.Length
      modifies this, events
      ensures State() == Perform(old(State()), PollEnd(dequeued, completions)).0
      ensures old(Valid() && Fine(State(), PollEnd(dequeued, completions))) ==> Valid()
      ensures n <= |completions| && events[..n] == Perform(old(State()), PollEnd(dequeued, completions)).1
      ensures forall k | n <= k < events.Length :: events[k] == old(events[k])
    {
      hide Inv, Fine, FeedAll;
      Kept(State(), PollEnd(dequeued, completions));
      n := 0;
      polls := polls - 1;
      if dequeued {
        n := FeedEvents(completions, events);
      }
    }

    method Close()
      modifies this`open
      ensures State() == Perform(old(State()), Operation.Close).0
      ensures old(Valid()) ==> Valid()
    {
      hide Inv;
      Kept(State(), Operation.Close);
      open := false;
    }

    // ----- tearing down

    method ForceDelete(a: Addr, cancelled: bool, ghost w0: World, ghost start: nat)
      requires start <= |freed| && Draining(w0, State(), freed[start..]) && a in socks
      modifies this`socks, this`tree, this`updateQ, this`deletedQ, this`groups, this`fault, this`freed
      ensures start <= |freed| && Draining(w0, State(), freed[start..])
      ensures socks == old(socks) - {a} && |socks| < |old(socks)|
      ensures freed[..start] == old(freed[..start])
    {
      hide Draining, DeleteSock;
      DrainStep(w0, State(), freed[start..], a, cancelled);
      ghost var gone := freed[start..];
      DeleteSocket(a, true, cancelled);
      assert freed[start..] == gone + [a];
    }

    method DeleteGroups()
      requires Unused(groups)
      modifies this`groups
      ensures groups == NO_GROUPS
    {
      hide Unused;
      while groups.order != []
        invariant Unused(groups)
        decreases |groups.size|
      {
        UnusedStep(groups);
        var x := groups.order[0];
        assert groups.size[x] == 0;
        groups := Groups(Without(groups.order, x), groups.size - {x});
      }
      NoneLeft(groups);
    }

    /** Frees every socket state and then every poll group of a port that has been closed.  `cancelled` holds the
        socket states whose request the kernel lets go when it is asked to. */
    method Delete(cancelled: set<Addr>)
      requires Valid() && !open
      modifies this`socks, this`tree, this`updateQ, this`deletedQ, this`groups, this`fault, this`freed
      ensures socks == map[] && tree == map[] && updateQ == [] && deletedQ == [] && groups == NO_GROUPS
      ensures !fault
      ensures |old(freed)| <= |freed| && freed[..|old(freed)|] == old(freed)
      ensures NoDuplicates(freed[|old(freed)|..])
      ensures forall a :: a in freed[|old(freed)|..] <==> a in old(socks)
    {
      hide Core, Draining, Unused;
      ghost var w0, start := State(), |freed|;
      DrainStart(w0);
      assert freed[start..] == [];
      while tree != map[]
        invariant start <= |freed| && Draining(w0, State(), freed[start..]) && freed[..start] == old(freed)
        decreases |socks|
      {
        var key :| key in tree;
        DrainFacts(w0, State(), freed[start..]);
        ForceDelete(tree[key], tree[key] in cancelled, w0, start);
      }
      DrainFacts(w0, State(), freed[start..]);
      while deletedQ != []
        invariant start <= |freed| && Draining(w0, State(), freed[start..]) && freed[..start] == old(freed)
        invariant AllPending(socks)
        decreases |socks|
      {
        DrainFacts(w0, State(), freed[start..]);
        ForceDelete(deletedQ[0], deletedQ[0] in cancelled, w0, start);
      }
      DrainFacts(w0, State(), freed[start..]);
      DeleteGroups();
      assert updateQ == [];
    }

    /** Closes the port and deletes it: whatever the operations before were, nothing is left and nothing was freed
        twice. */
    method CloseAndDelete(cancelled: set<Addr>)
      requires Valid()
      modifies this
      ensures !open && socks == map[] && tree == map[] && updateQ == [] && deletedQ == [] && groups == NO_GROUPS
      ensures !fault
      ensures |old(freed)| <= |freed| && freed[..|old(freed)|] == old(freed)
      ensures NoDuplicates(freed[|old(freed)|..])
      ensures forall a :: a in freed[|old(freed)|..] <==> a in old(socks)
    {
      hide Inv, Unused;
      Close();
      Delete(cancelled);
    }
  }
}
