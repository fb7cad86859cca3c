/** The port as its user sees it: a list of sockets with the events asked for and the user's data.  What each operation
    does to this list, and exactly what is reported from a batch of completions. */
module PortInterest {
  import opened PollEvents
  import opened PollGroups
  import opened Sequences
  import opened PortModel
  import opened PortInvariants
  import opened PortRuns

  datatype Registration = Registration(events: bv32, data: int)

  type List = map<Socket, Registration>

  function RegistrationOf(s: Sock): Registration {
    Registration(s.userEvents, s.userData)
  }

  /** The registered sockets. */
  ghost function Registrations(w: World): List {
    map k | k in w.tree && w.tree[k] in w.socks :: RegistrationOf(w.socks[w.tree[k]])
  }

  // ----- one socket state

  ghost predicate OthersSame(socks: Socks, socks': Socks, a: Addr) {
    forall b | b != a :: (b in socks' <==> b in socks) && (b in socks ==> socks'[b] == socks[b])
  }

  lemma {:induction false} Without1(socks: Socks, socks': Socks, a: Addr)
    requires socks' - {a} == socks - {a}
    ensures OthersSame(socks, socks', a)
  {
    forall b | b != a
      ensures (b in socks' <==> b in socks) && (b in socks ==> socks'[b] == socks[b])
    {
      assert b in socks' - {a} <==> b in socks';
      assert b in socks - {a} <==> b in socks;
    }
  }

  /** A socket is on the list of `w'` exactly when it is on that of `w`, under another socket state than `a`. */
  lemma {:induction false} StillRegistered(w: World, w': World, a: Addr, k: Socket)
    requires Registered(w.socks, w.tree) && Registered(w'.socks, w'.tree) && OthersSame(w.socks, w'.socks, a)
    requires a in w'.socks ==> w'.socks[a].deletePending
    ensures k in w'.tree <==> k in w.tree && w.tree[k] != a
    ensures k in w'.tree ==> w'.tree[k] == w.tree[k] && w'.socks[w'.tree[k]] == w.socks[w.tree[k]]
  {
    if k in w'.tree {
      var b := w'.tree[k];
      assert b in w'.socks && b != a;
      assert w.socks[b] == w'.socks[b];
      assert w.tree[w.socks[b].socket] == b;
    }
    if k in w.tree && w.tree[k] != a {
      var b := w.tree[k];
      assert w'.socks[b] == w.socks[b];
      assert w'.socks[b].socket in w'.tree;
    }
  }

  /** The socket state `a` is deleted, and nothing else changes. */
  lemma {:induction false} Dropped(w: World, w': World, a: Addr)
    requires Registered(w.socks, w.tree) && Registered(w'.socks, w'.tree) && a in w.socks
    requires w'.socks - {a} == w.socks - {a} && (a in w'.socks ==> w'.socks[a].deletePending)
    ensures Registrations(w') == if w.socks[a].deletePending then Registrations(w)
      else Registrations(w) - {w.socks[a].socket}
  {
    Without1(w.socks, w'.socks, a);
    forall k
      ensures k in w'.tree <==> k in w.tree && w.tree[k] != a
      ensures k in w'.tree ==> w'.tree[k] == w.tree[k] && w'.socks[w'.tree[k]] == w.socks[w.tree[k]]
    {
      StillRegistered(w, w', a, k);
    }
    RegisteredOnce(w, a);
    hide Registered, OthersSame;
  }

  lemma {:induction false} RegisteredOnce(w: World, a: Addr)
    requires Registered(w.socks, w.tree) && a in w.socks
    ensures forall k | k in w.tree ::
      w.tree[k] in w.socks && (w.tree[k] == a <==> !w.socks[a].deletePending && k == w.socks[a].socket)
  {
  }

  /** The registered socket state `a` changes nothing but its request and its mask. */
  lemma {:induction false} Changed(w: World, w': World, a: Addr, s: Sock)
    requires Registered(w.socks, w.tree) && a in w.socks && !w.socks[a].deletePending && SamePlace(w.socks[a], s)
    requires w'.socks == w.socks[a := s] && w'.tree == w.tree
    ensures Registrations(w') == Registrations(w)[s.socket := RegistrationOf(s)]
    ensures RegistrationOf(s) == RegistrationOf(w.socks[a]) ==> Registrations(w') == Registrations(w)
  {
  }

  lemma {:induction false} DeleteInterest(w: World, a: Addr, cancelled: bool)
    requires Core(w) && a in w.socks
    ensures Registrations(DeleteSock(w, a, false, cancelled)) ==
            if w.socks[a].deletePending then Registrations(w) else Registrations(w) - {w.socks[a].socket}
  {
    hide Queued, Counted, DeleteSock, Registrations, Registered;
    DeleteCore(w, a, false, cancelled);
    Dropped(w, DeleteSock(w, a, false, cancelled), a);
  }

  /** Adding or changing a registration puts exactly what was asked for, and errors and hang-ups, on the list. */
  lemma {:induction false} SetEventInterest(w: World, a: Addr, events: bv32, data: int)
    requires Core(w) && a in w.socks && !w.socks[a].deletePending
    ensures Registrations(SetEvent(w, a, events, data)) ==
            Registrations(w)[w.socks[a].socket := Registration(events | EPOLLERR | EPOLLHUP, data)]
  {
    hide Queued, Counted, Uncovered, Registrations, Registered;
    Changed(w, SetEvent(w, a, events, data), a,
      w.socks[a].(userEvents := events | EPOLLERR | EPOLLHUP, userData := data));
  }

  /** The only update that takes a socket off the list is one that finds its handle invalid. */
  predicate Closes(s: Sock, answer: Answer) {
    s.status.Idle? && answer.poll.InvalidHandle?
  }

  lemma {:induction false} UpdateSockInterest(w: World, a: Addr, answer: Answer)
    requires Inv(w) && a in w.updateQ
    ensures a in w.socks
    ensures Registrations(UpdateSock(w, a, answer).0) ==
            if Closes(w.socks[a], answer) then Registrations(w) - {w.socks[a].socket} else Registrations(w)
  {
    hide Queued, Counted, Registrations, Registered, Flight, Interest, DeleteSock, Uncovered, Without;
    UpdateMember(w, a);
    DeleteInterest(w, a, answer.cancelled);
    DequeuedQueues(w, a);
    DequeuedQueues(CancelPoll(w, a, true), a);
    DequeuedQueues(Submit(w, a), a);
    if !Closes(w.socks[a], answer) {
      SameLists(w, UpdateSock(w, a, answer).0, a);
    }
  }

  lemma {:induction false} UpdateAllInterest(w: World, answers: seq<Answer>)
    requires Inv(w) && |w.updateQ| <= |answers|
    ensures var after := Registrations(UpdateAll(w, answers).0);
      && (forall k | k in after :: k in Registrations(w) && after[k] == Registrations(w)[k])
      && ((forall x | x in answers :: !x.poll.InvalidHandle?) ==> after == Registrations(w))
    decreases |w.updateQ|
  {
    hide Inv, UpdateSock, Without, Registrations;
    if w.updateQ != [] {
      var a := w.updateQ[0];
      UpdateSockInv(w, a, answers[0]);
      UpdateSockInterest(w, a, answers[0]);
      var (next, ok) := UpdateSock(w, a, answers[0]);
      if ok {
        UpdateDequeues(w, a, answers[0]);
        WithoutMembers(w.updateQ, a);
        UpdateAllInterest(next, answers[1..]);
        assert forall x | x in answers[1..] :: x in answers;
      }
    }
  }

  lemma {:induction false} UpdateMember(w: World, a: Addr)
    requires Inv(w) && a in w.updateQ
    ensures a in w.socks && !w.socks[a].deletePending
  {
  }

  lemma {:induction false} SameLists(w: World, w': World, a: Addr)
    requires Registered(w.socks, w.tree) && a in w.socks && !w.socks[a].deletePending
    requires w'.tree == w.tree && a in w'.socks && w'.socks == w.socks[a := w'.socks[a]]
    requires SamePlace(w.socks[a], w'.socks[a]) && RegistrationOf(w'.socks[a]) == RegistrationOf(w.socks[a])
    ensures Registrations(w') == Registrations(w)
  {
  }

  // ----- completions

  /** The socket itself was closed. */
  predicate LocalClose(c: Completion) {
    c.outcome.Happened? && c.outcome.events & AFD_LOCAL_CLOSE != 0
  }

  /** What the user is told of one completion: the reported events among those asked for, if there are any. */
  function Told(s: Sock, c: Completion): Option<Report> {
    if s.deletePending || LocalClose(c) then None
    else
      var events := Filtered(RawEvents(c.outcome), s.userEvents);
      if events == 0 then None else Some(Report(c.addr, s.userData, events))
  }

  /** What the completion does to the list: a closed socket leaves it, a one-shot registration that was reported asks
      for nothing any more. */
  function ListAfter(list: List, s: Sock, c: Completion): List {
    if s.deletePending then list
    else if LocalClose(c) then list - {s.socket}
    else if Told(s, c).Some? && IsOneShot(s.userEvents) then list[s.socket := Registration(0, s.userData)]
    else list
  }

  lemma {:induction false} DeliverTells(w: World, a: Addr, c: Completion)
    requires Core(w) && a == c.addr && a in w.socks && !w.socks[a].deletePending && !LocalClose(c)
    ensures var (w', r) := Deliver(w, a, RawEvents(c.outcome));
      && r == Told(w.socks[a], c) && Registrations(w') == ListAfter(Registrations(w), w.socks[a], c)
      && OthersSame(w.socks, w'.socks, a)
  {
    hide Queued, Counted, Registered, Registrations, RawEvents, Filtered, IsOneShot;
    var s := w.socks[a];
    if Told(s, c).Some? && IsOneShot(s.userEvents) {
      Changed(w, Deliver(w, a, RawEvents(c.outcome)).0, a, s.(userEvents := 0));
    }
  }

  /** The request is over; the registration stays. */
  lemma {:induction false} CompletedInterest(w: World, a: Addr)
    requires Inv(w) && a in w.inFlight
    ensures a in w.socks && Core(Completed(w, a)) && Registrations(Completed(w, a)) == Registrations(w)
    ensures OthersSame(w.socks, Completed(w, a).socks, a)
  {
    hide Queued, Counted, Registered, Registrations, Flight, Interest;
    CompletedInv(w, a);
    if w.socks[a].deletePending {
      Dropped(w, Completed(w, a), a);
    } else {
      SameLists(w, Completed(w, a), a);
    }
  }

  lemma {:induction false} SameRegistrations(w: World, w': World)
    requires w'.socks == w.socks && w'.tree == w.tree
    ensures Registrations(w') == Registrations(w)
  {
  }

  lemma {:induction false} OthersTwice(socks: Socks, socks': Socks, socks'': Socks, a: Addr)
    requires OthersSame(socks, socks', a) && OthersSame(socks', socks'', a)
    ensures OthersSame(socks, socks'', a)
  {
  }

  /** Exactly what one completion reports, and what it does to the list. */
  lemma {:induction false} FeedEventInterest(w: World, c: Completion)
    requires Inv(w) && c.addr in w.inFlight
    ensures c.addr in w.socks
    ensures var (w', r) := FeedEvent(w, c);
      && r == Told(w.socks[c.addr], c) && Registrations(w') == ListAfter(Registrations(w), w.socks[c.addr], c)
      && OthersSame(w.socks, w'.socks, c.addr)
  {
    hide Core, Registrations, Flight, Interest, OthersSame, Deliver, DeleteSock, RequestUpdate, RawEvents, Filtered,
         IsOneShot;
    var a := c.addr;
    CompletedInterest(w, a);
    var w1, w' := Completed(w, a), FeedEvent(w, c).0;
    if w.socks[a].deletePending || LocalClose(c) {
      DeleteInterest(w1, a, false);
      DeleteCore(w1, a, false, false);
      Without1(w1.socks, w'.socks, a);
    } else {
      RequestCore(w1, a);
      SameRegistrations(w1, RequestUpdate(w1, a));
      DeliverTells(RequestUpdate(w1, a), a, c);
    }
    OthersTwice(w.socks, w1.socks, w'.socks, a);
  }

  /** Whether a completion stands for an event: kernel events for what they cause, a failed request for an error. */
  predicate StandsFor(c: Completion, b: bv32) {
    (c.outcome.Happened? && Has(c.outcome.events, Causes(b))) || (c.outcome.Failed? && b == EPOLLERR)
  }

  lemma {:induction false} RawExactly(c: Completion, b: bv32)
    requires IsEvent(b)
    ensures Has(RawEvents(c.outcome), b) <==> StandsFor(c, b)
  {
    hide FromAfd, Causes, IsEvent, Has;
    match c.outcome
    case Happened(events) => ReportedExactly(events, b);
    case _ => OnlyErrors(b);
  }

  lemma {:induction false} OnlyErrors(b: bv32)
    requires IsEvent(b)
    ensures (Has(EPOLLERR, b) <==> b == EPOLLERR) && !Has(0, b)
  {
  }

  lemma {:induction false} InBoth(raw: bv32, wanted: bv32, b: bv32)
    requires IsEvent(b)
    ensures Has(Filtered(raw, wanted), b) <==> Has(raw, b) && Has(wanted, b)
    ensures !Has(0, b)
  {
  }

  lemma {:induction false} NoOthers(c: Completion, wanted: bv32)
    ensures Filtered(RawEvents(c.outcome), wanted) & !KNOWN_EVENTS == 0
  {
    hide FromAfd;
    if c.outcome.Happened? {
      ReportedExactly(c.outcome.events, 0);
    }
  }

  /** What a report says about one event. */
  predicate Reports(r: Option<Report>, b: bv32) {
    r.Some? && Has(r.value.events, b)
  }

  lemma {:induction false} ToldExactly(s: Sock, c: Completion, b: bv32)
    requires IsEvent(b)
    ensures Reports(Told(s, c), b) <==> !s.deletePending && !LocalClose(c) && Has(s.userEvents, b) && StandsFor(c, b)
  {
    hide StandsFor, RawEvents, Filtered, LocalClose, IsEvent, Has;
    RawExactly(c, b);
    InBoth(RawEvents(c.outcome), s.userEvents, b);
  }

  lemma {:induction false} ToldKnown(s: Sock, c: Completion)
    ensures Told(s, c).Some? ==>
      var r := Told(s, c).value;
      r.addr == c.addr && r.data == s.userData && r.events != 0 && r.events & !KNOWN_EVENTS == 0
  {
    hide RawEvents, Filtered, LocalClose;
    NoOthers(c, s.userEvents);
  }

  /** Every known event is reported exactly if the completion stands for it and the user asked for it, and no other; of
      a deleted or closed socket nothing is reported. */
  lemma {:induction false} ReportsExactly(w: World, c: Completion, b: bv32)
    requires Inv(w) && c.addr in w.inFlight && IsEvent(b)
    ensures c.addr in w.socks
    ensures var s, r := w.socks[c.addr], FeedEvent(w, c).1;
      && (Reports(r, b) <==> !s.deletePending && !LocalClose(c) && Has(s.userEvents, b) && StandsFor(c, b))
      && (r.Some? ==> r.value.addr == c.addr && r.value.data == s.userData)
      && (r.Some? ==> r.value.events != 0 && r.value.events & !KNOWN_EVENTS == 0)
  {
    hide Inv, FeedEvent, StandsFor, Told, Reports, Has, ListAfter, Registrations, OthersSame, LocalClose, IsEvent;
    FeedEventInterest(w, c);
    ToldExactly(w.socks[c.addr], c, b);
    ToldKnown(w.socks[c.addr], c);
  }

  /** A report carries events and data of the list, not of anything else. */
  lemma {:induction false} ToldFromList(w: World, c: Completion)
    requires Inv(w) && c.addr in w.socks && Told(w.socks[c.addr], c).Some?
    ensures var s, r := w.socks[c.addr], Told(w.socks[c.addr], c).value;
      && s.socket in Registrations(w)
      && r == Report(c.addr, Registrations(w)[s.socket].data,
                     Filtered(RawEvents(c.outcome), Registrations(w)[s.socket].events))
  {
    hide Queued, Counted, Flight, Interest, RawEvents, Filtered;
    RegisteredOnce(w, c.addr);
  }

  // ----- a batch

  /** What the user is told of a batch, judged by the state before the batch. */
  function ToldAll(socks: Socks, cs: seq<Completion>): seq<Report>
    requires forall c | c in cs :: c.addr in socks
    decreases |cs|
  {
    if cs == [] then []
    else
      var r := Told(socks[cs[0].addr], cs[0]);
      (if r.Some? then [r.value] else []) + ToldAll(socks, cs[1..])
  }

  function ListAfterAll(list: List, socks: Socks, cs: seq<Completion>): List
    requires forall c | c in cs :: c.addr in socks
    decreases |cs|
  {
    if cs == [] then list else ListAfterAll(ListAfter(list, socks[cs[0].addr], cs[0]), socks, cs[1..])
  }

  lemma {:induction false} ToldSame(socks: Socks, socks': Socks, a: Addr, list: List, cs: seq<Completion>)
    requires OthersSame(socks, socks', a) && forall c | c in cs :: c.addr in socks && c.addr != a
    ensures forall c | c in cs :: c.addr in socks'
    ensures ToldAll(socks', cs) == ToldAll(socks, cs) && ListAfterAll(list, socks', cs) == ListAfterAll(list, socks, cs)
    decreases |cs|
  {
    hide Told, ListAfter;
    if cs != [] {
      assert cs[0] in cs && forall c | c in cs[1..] :: c in cs;
      ToldSame(socks, socks', a, ListAfter(list, socks[cs[0].addr], cs[0]), cs[1..]);
    }
  }

  lemma {:induction false} AddressesAllocated(w: World, cs: seq<Completion>)
    requires Inv(w) && AllInFlight(w, cs)
    ensures forall c | c in cs :: c.addr in w.socks
  {
  }

  /** The order in which a batch is fed does not matter: every report, and the list after it, are those of the single
      completions, judged by the state before. */
  lemma {:induction false} FeedAllInterest(w: World, cs: seq<Completion>)
    requires Inv(w) && Distinct(cs) && AllInFlight(w, cs)
    ensures forall c | c in cs :: c.addr in w.socks
    ensures FeedAll(w, cs).1 == ToldAll(w.socks, cs)
    ensures Registrations(FeedAll(w, cs).0) == ListAfterAll(Registrations(w), w.socks, cs)
    decreases |cs|
  {
    hide Inv, FeedEvent, Registrations, Told, ListAfter, OthersSame;
    AddressesAllocated(w, cs);
    if cs != [] {
      assert cs[0] in cs && forall c | c in cs[1..] :: c in cs;
      FeedEventInv(w, cs[0]);
      FeedEventInterest(w, cs[0]);
      var w1 := FeedEvent(w, cs[0]).0;
      FeedAllInterest(w1, cs[1..]);
      ToldSame(w.socks, w1.socks, cs[0].addr, Registrations(w1), cs[1..]);
    }
  }

  // ----- whole operations

  /** No group has room for one more socket. */
  ghost predicate AllFull(g: Groups) {
    forall x | x in g.size :: g.size[x] == 32
  }

  /** Everything that adding needs is granted; a new group can only be had while the port is open. */
  ghost predicate Provided(w: World, supply: Supply) {
    supply.base && supply.sock.Some? && (AllFull(w.groups) ==> w.open && supply.group.Some?)
  }

  /** A socket can be added if it is one, is not on the list yet, and all is granted. */
  ghost predicate CanAdd(w: World, socket: Socket, supply: Supply) {
    0 < socket != 0xFFFF_FFFF_FFFF_FFFF && Provided(w, supply) && socket !in Registrations(w)
  }

  lemma {:induction false} Listed(w: World, socket: Socket)
    requires Inv(w)
    ensures socket in Registrations(w) <==> socket in w.tree
  {
    hide Queued, Counted, Flight, Interest;
  }

  lemma {:induction false} GroupGranted(w: World, created: Option<GroupId>)
    requires Inv(w)
    ensures AcquireGroup(w, created).1.Some? <==> (AllFull(w.groups) ==> w.open && created.Some?)
    ensures AcquireGroup(w, created).0.tree == w.tree
  {
    hide Registered, Queued, Flight, Interest, NeedsNew, Ok;
    GroupsOk(w);
    NewOnlyWhenFull(w.groups);
  }

  lemma {:induction false} GroupsOk(w: World)
    requires Inv(w)
    ensures Ok(w.groups)
  {
    hide Registered, Queued, Flight, Interest;
  }

  /** Adding succeeds in these cases and in no others. */
  lemma {:induction false} AddedExactly(w: World, socket: Socket, supply: Supply)
    requires Inv(w)
    ensures NewSock(w, socket, supply).1.Some? <==> CanAdd(w, socket, supply)
  {
    hide Inv, AcquireGroup, ReleaseGroup, Registrations, AllFull;
    GroupGranted(w, supply.group);
    Listed(w, socket);
  }

  lemma {:induction false} NewSockInterest(w: World, socket: Socket, supply: Supply)
    requires Inv(w) && Fresh(w, supply)
    ensures var (w', a) := NewSock(w, socket, supply);
      && (a.None? ==> Registrations(w') == Registrations(w))
      && (a.Some? ==> socket !in w.tree && Registrations(w') == Registrations(w)[socket := Registration(0, 0)])
  {
    hide Queued, Counted, Flight, Interest, Acquire, Release, Releasable, NeedsNew, Registrations;
    var (w', a) := NewSock(w, socket, supply);
    if a.Some? {
      NewEntry(w, w', socket, a.value);
    } else {
      SameRegistrations(w, w');
    }
  }

  lemma {:induction false} NewEntry(w: World, w': World, k: Socket, a: Addr)
    requires Registered(w.socks, w.tree) && a !in w.socks && a in w'.socks
    requires w'.socks == w.socks[a := w'.socks[a]] && w'.tree == w.tree[k := a]
    ensures Registrations(w') == Registrations(w)[k := RegistrationOf(w'.socks[a])]
  {
  }

  /** The list is `target`, except for sockets that the kernel found closed while the queue was worked off. */
  ghost predicate Within(after: List, target: List, answers: seq<Answer>) {
    && (forall k | k in after :: k in target && after[k] == target[k])
    && ((forall x | x in answers :: !x.poll.InvalidHandle?) ==> after == target)
  }

  lemma {:induction false} UpdateWithin(w: World, answers: seq<Answer>)
    requires Inv(w) && |w.updateQ| <= |answers|
    ensures Within(Registrations(UpdateAll(w, answers).0), Registrations(w), answers)
    ensures Within(Registrations(UpdateIfPolling(w, answers)), Registrations(w), answers)
  {
    hide Inv, UpdateAll, Registrations;
    UpdateAllInterest(w, answers);
  }

  /** Setting a mask and working off the queue. */
  lemma {:induction false} SetWithin(w: World, a: Addr, events: bv32, data: int, answers: seq<Answer>)
    requires Core(w) && a in w.socks && !w.socks[a].deletePending && |w.updateQ| + 1 <= |answers| &&
      Inv(SetEvent(w, a, events, data))
    ensures |SetEvent(w, a, events, data).updateQ| <= |answers|
    ensures Within(Registrations(UpdateIfPolling(SetEvent(w, a, events, data), answers)),
                   Registrations(w)[w.socks[a].socket := Registration(events | EPOLLERR | EPOLLHUP, data)], answers)
  {
    hide Core, Inv, SetEvent, UpdateIfPolling, Registrations, Within;
    SetEventKeeps(w, a, events, data);
    SetEventInterest(w, a, events, data);
    UpdateWithin(SetEvent(w, a, events, data), answers);
  }

  lemma {:induction false} AddInterest(w: World, op: Operation)
    requires Inv(w) && Possible(w, op) && !AddAfterClose(w, op) && op.Add?
    ensures var before, after := Registrations(w), Registrations(Perform(w, op).0);
      if !CanAdd(w, op.socket, op.supply) then after == before
      else
        Within(after, before[op.socket := Registration(op.events | EPOLLERR | EPOLLHUP, op.data)], op.answers)
  {
    hide Core, Flight, Interest, SetEvent, UpdateIfPolling, NewSock, HandleGone, Registrations, Within, CanAdd;
    AddedExactly(w, op.socket, op.supply);
    NewSockInv(w, op.socket, op.supply);
    NewSockInterest(w, op.socket, op.supply);
    var (w1, a) := NewSock(w, op.socket, op.supply);
    if a.Some? {
      SetEventNew(w1, a.value, op.events, op.data);
      SetWithin(w1, a.value, op.events, op.data, op.answers);
      var r := Registration(op.events | EPOLLERR | EPOLLHUP, op.data);
      assert Registrations(w)[op.socket := Registration(0, 0)][op.socket := r] == Registrations(w)[op.socket := r];
    }
  }

  lemma {:induction false} ModifyInterest(w: World, op: Operation)
    requires Inv(w) && Possible(w, op) && op.Modify? && op.socket in w.tree
    ensures Within(Registrations(Perform(w, op).0),
                   Registrations(w)[op.socket := Registration(op.events | EPOLLERR | EPOLLHUP, op.data)], op.answers)
  {
    hide Core, Flight, Interest, SetEvent, UpdateIfPolling, Registrations, Within;
    InTree(w, op.socket);
    var a := w.tree[op.socket];
    SetEventInv(w, a, op.events, op.data);
    SetWithin(w, a, op.events, op.data, op.answers);
  }

  lemma {:induction false} RemoveInterest(w: World, op: Operation)
    requires Inv(w) && op.Remove?
    ensures Registrations(Perform(w, op).0) == Registrations(w) - {op.socket}
  {
    hide Core, Flight, Interest, DeleteSock;
    if op.socket in w.tree {
      InTree(w, op.socket);
      DeleteInterest(w, w.tree[op.socket], op.cancelled);
    }
  }

  /** What every operation reports, and what it does to the list that the user sees. */
  lemma {:induction false} PerformInterest(w: World, op: Operation)
    requires Inv(w) && Possible(w, op) && !AddAfterClose(w, op)
    ensures forall c | c in Completions(op) :: c.addr in w.socks
    ensures Perform(w, op).1 == ToldAll(w.socks, Completions(op))
    ensures var before, after := Registrations(w), Registrations(Perform(w, op).0);
      match op
      case Add(socket, events, data, supply, answers) =>
        if !CanAdd(w, socket, supply) then after == before
        else
          Within(after, before[socket := Registration(events | EPOLLERR | EPOLLHUP, data)], answers)
      case Modify(socket, events, data, answers) =>
        if socket !in before then after == before
        else Within(after, before[socket := Registration(events | EPOLLERR | EPOLLHUP, data)], answers)
      case Remove(socket, _) => after == before - {socket}
      case PollBegin(answers) => Within(after, before, answers)
      case PollEnd(_, _) => after == ListAfterAll(before, w.socks, Completions(op))
      case PollDone(answers) => Within(after, before, answers)
      case Close => after == before
  {
    hide Core, Flight, Interest, NewSock, SetEvent, DeleteSock, UpdateAll, UpdateIfPolling, FeedAll, Within, Distinct,
         HandleGone;
    hide Registrations, ToldAll, ListAfterAll, CanAdd;
    AddressesAllocated(w, Completions(op));
    NothingTold(w);
    match op
    case Add(_, _, _, _, _) => AddInterest(w, op);
    case Modify(socket, _, _, _) =>
      Listed(w, socket);
      if socket in w.tree {
        ModifyInterest(w, op);
      }
    case Remove(_, _) => RemoveInterest(w, op);
    case PollBegin(answers) =>
      UpdateWithin(w, answers);
      SameRegistrations(UpdateAll(w, answers).0, Perform(w, op).0);
    case PollEnd(dequeued, completions) =>
      var w1 := w.(polls := w.polls - 1);
      SameRegistrations(w, w1);
      if dequeued {
        InvIgnores(w, w1);
        FeedAllInterest(w1, completions);
      }
    case PollDone(answers) => UpdateWithin(w, answers);
    case Close => SameRegistrations(w, Perform(w, op).0);
  }

  lemma {:induction false} NothingTold(w: World)
    ensures ToldAll(w.socks, []) == [] && ListAfterAll(Registrations(w), w.socks, []) == Registrations(w)
  {
  }
}
