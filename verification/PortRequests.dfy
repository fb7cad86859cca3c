/** Over whole runs, what is reported is what the user asked for last. */
module PortRequests {
  import opened PollEvents
  import opened PollGroups
  import opened Sequences
  import opened PortModel
  import opened PortInvariants
  import opened PortRuns
  import opened PortInterest

  // ----- what the user asked for

  /** Whether a request to add or to modify a socket succeeds. */
  ghost predicate Accepted(w: World, op: Operation) {
    (op.Add? && CanAdd(w, op.socket, op.supply)) || (op.Modify? && op.socket in Registrations(w))
  }

  /** The last accepted request for each socket; errors and hang-ups are always asked for. */
  ghost function AskedBy(w: World, op: Operation, asked: List): List {
    if Accepted(w, op) then asked[op.socket := Registration(op.events | EPOLLERR | EPOLLHUP, op.data)] else asked
  }

  ghost function Asked(w: World, ops: seq<Operation>, asked: List): List
    requires PossibleRun(w, ops)
    decreases |ops|
  {
    if ops == [] then asked else Asked(Perform(w, ops[0]).0, ops[1..], AskedBy(w, ops[0], asked))
  }

  // ----- the list holds nothing else

  /** An entry is the last request for its socket, or what a one-shot request leaves once it was reported. */
  predicate Honoured(entry: Registration, request: Registration) {
    entry.data == request.data && (entry.events == request.events || (entry.events == 0 && IsOneShot(request.events)))
  }

  ghost predicate AllHonoured(list: List, asked: List) {
    forall k | k in list :: k in asked && Honoured(list[k], asked[k])
  }

  lemma {:induction false} SetHonoured(list: List, asked: List, after: List, k: Socket, r: Registration,
      answers: seq<Answer>)
    requires AllHonoured(list, asked) && Within(after, list[k := r], answers)
    ensures AllHonoured(after, asked[k := r])
  {
    hide IsOneShot;
  }

  lemma {:induction false} FewerHonoured(list: List, asked: List, after: List, answers: seq<Answer>)
    requires AllHonoured(list, asked) && Within(after, list, answers)
    ensures AllHonoured(after, asked)
  {
    hide Honoured;
  }

  /** The entry of a registered socket state is on the list. */
  lemma {:induction false} Entry(w: World, a: Addr)
    requires Inv(w) && a in w.socks && !w.socks[a].deletePending
    ensures w.socks[a].socket in Registrations(w) && Registrations(w)[w.socks[a].socket] == RegistrationOf(w.socks[a])
  {
    hide Queued, Counted, Flight, Interest;
    RegisteredOnce(w, a);
  }

  ghost predicate SocksHonoured(socks: Socks, asked: List) {
    forall a | a in socks && !socks[a].deletePending :: SockHonoured(socks[a], asked)
  }

  predicate SockHonoured(s: Sock, asked: List) {
    s.socket in asked && Honoured(RegistrationOf(s), asked[s.socket])
  }

  lemma {:induction false} SocksFromList(w: World, asked: List)
    requires Inv(w) && AllHonoured(Registrations(w), asked)
    ensures SocksHonoured(w.socks, asked)
  {
    hide Inv, Registrations, Honoured;
    forall a | a in w.socks && !w.socks[a].deletePending
      ensures SockHonoured(w.socks[a], asked)
    {
      Entry(w, a);
    }
  }

  /** A one-shot registration that still asks for something is the request itself. */
  lemma {:induction false} OneShotLeft(s: Sock, asked: List)
    requires SockHonoured(s, asked) && IsOneShot(s.userEvents)
    ensures Honoured(Registration(0, s.userData), asked[s.socket])
  {
  }

  lemma {:induction false} CompletionHonoured(list: List, s: Sock, c: Completion, asked: List)
    requires AllHonoured(list, asked) && (!s.deletePending ==> SockHonoured(s, asked))
    ensures AllHonoured(ListAfter(list, s, c), asked)
  {
    hide Told, Honoured, LocalClose, IsOneShot;
    if !s.deletePending && IsOneShot(s.userEvents) {
      hide SockHonoured;
      OneShotLeft(s, asked);
    }
  }

  lemma {:induction false} BatchHonoured(list: List, socks: Socks, cs: seq<Completion>, asked: List)
    requires AllHonoured(list, asked) && SocksHonoured(socks, asked) && forall c | c in cs :: c.addr in socks
    ensures AllHonoured(ListAfterAll(list, socks, cs), asked)
    decreases |cs|
  {
    hide AllHonoured, SockHonoured, ListAfter;
    if cs != [] {
      assert cs[0] in cs && forall c | c in cs[1..] :: c in cs;
      CompletionHonoured(list, socks[cs[0].addr], cs[0], asked);
      BatchHonoured(ListAfter(list, socks[cs[0].addr], cs[0]), socks, cs[1..], asked);
    }
  }

  lemma {:induction false} StepHonoured(w: World, op: Operation, asked: List)
    requires Inv(w) && Possible(w, op) && !AddAfterClose(w, op) && AllHonoured(Registrations(w), asked)
    ensures AllHonoured(Registrations(Perform(w, op).0), AskedBy(w, op, asked))
  {
    hide Inv, Perform, Registrations, AllHonoured, Within, ListAfterAll, AddAfterClose, CanAdd, ToldAll, Distinct,
         AllInFlight;
    PerformInterest(w, op);
    var before, after := Registrations(w), Registrations(Perform(w, op).0);
    match op
    case Add(socket, events, data, _, answers) =>
      if Accepted(w, op) {
        SetHonoured(before, asked, after, socket, Registration(events | EPOLLERR | EPOLLHUP, data), answers);
      }
    case Modify(socket, events, data, answers) =>
      if Accepted(w, op) {
        SetHonoured(before, asked, after, socket, Registration(events | EPOLLERR | EPOLLHUP, data), answers);
      }
    case Remove(socket, _) => LessHonoured(before, asked, socket);
    case PollBegin(answers) => FewerHonoured(before, asked, after, answers);
    case PollEnd(_, _) =>
      SocksFromList(w, asked);
      BatchHonoured(before, w.socks, Completions(op), asked);
    case PollDone(answers) => FewerHonoured(before, asked, after, answers);
    case Close =>
  }

  lemma {:induction false} LessHonoured(list: List, asked: List, k: Socket)
    requires AllHonoured(list, asked)
    ensures AllHonoured(list - {k}, asked)
  {
    hide Honoured;
  }

  lemma {:induction false} RunHonoured(w: World, ops: seq<Operation>, asked: List)
    requires Inv(w) && PossibleRun(w, ops) && AllHonoured(Registrations(w), asked)
    ensures AllHonoured(Registrations(RunOps(w, ops)), Asked(w, ops, asked))
    decreases |ops|
  {
    hide Inv, Perform, Registrations, AllHonoured, AddAfterClose, AskedBy;
    if ops != [] {
      PerformInv(w, ops[0]);
      StepHonoured(w, ops[0], asked);
      RunHonoured(Perform(w, ops[0]).0, ops[1..], AskedBy(w, ops[0], asked));
    }
  }

  // ----- the reports

  lemma {:induction false} ToldMember(socks: Socks, cs: seq<Completion>, r: Report)
    requires (forall c | c in cs :: c.addr in socks) && r in ToldAll(socks, cs)
    ensures exists c | c in cs :: Told(socks[c.addr], c) == Some(r)
    decreases |cs|
  {
    hide Told;
    assert cs[0] in cs && forall c | c in cs[1..] :: c in cs;
    if Told(socks[cs[0].addr], cs[0]) != Some(r) {
      ToldMember(socks, cs[1..], r);
    }
  }

  /** The report carries the data of the request for its socket, and events that were asked for, at least one. */
  ghost predicate WasAsked(w: World, r: Report, asked: List) {
    r.addr in w.socks &&
    var k := w.socks[r.addr].socket;
    k in asked && r.data == asked[k].data && r.events != 0 && r.events & !asked[k].events == 0
  }

  lemma {:induction false} MaskedTwice(raw: bv32, mask: bv32, asked: bv32)
    requires mask == asked || mask == 0
    ensures Filtered(raw, mask) & !asked == 0
  {
  }

  lemma {:induction false} ToldWasAsked(w: World, c: Completion, asked: List)
    requires c.addr in w.socks && SocksHonoured(w.socks, asked) && Told(w.socks[c.addr], c).Some?
    ensures WasAsked(w, Told(w.socks[c.addr], c).value, asked)
  {
    hide Filtered, RawEvents, LocalClose, IsOneShot;
    var s := w.socks[c.addr];
    assert SockHonoured(s, asked);
    MaskedTwice(RawEvents(c.outcome), s.userEvents, asked[s.socket].events);
  }

  lemma {:induction false} StepReports(w: World, op: Operation, asked: List)
    requires Inv(w) && Possible(w, op) && !AddAfterClose(w, op) && AllHonoured(Registrations(w), asked)
    ensures forall r | r in Perform(w, op).1 :: WasAsked(w, r, asked)
  {
    hide Inv, Perform, Registrations, AllHonoured, SocksHonoured, WasAsked, Told, ToldAll, AddAfterClose, Distinct,
         AllInFlight, Completions;
    PerformInterest(w, op);
    SocksFromList(w, asked);
    forall r | r in Perform(w, op).1
      ensures WasAsked(w, r, asked)
    {
      ToldMember(w.socks, Completions(op), r);
      var c :| c in Completions(op) && Told(w.socks[c.addr], c) == Some(r);
      ToldWasAsked(w, c, asked);
    }
  }

  lemma {:induction false} StartHonoured()
    ensures Inv(START) && AllHonoured(Registrations(START), map[])
  {
  }

  /** In every run, the list holds for each socket the last accepted request, or nothing but its data once a one-shot
      request was reported; and every report carries the data of that request and a part of the events it asked for. */
  lemma {:induction false} ReportsWhatWasAsked(ops: seq<Operation>, op: Operation)
    requires PossibleRun(START, ops)
    ensures AllHonoured(Registrations(RunOps(START, ops)), Asked(START, ops, map[]))
    ensures var w := RunOps(START, ops);
      Possible(w, op) && !AddAfterClose(w, op) ==> forall r | r in Perform(w, op).1 ::
        WasAsked(w, r, Asked(START, ops, map[]))
  {
    hide Inv, Perform, PossibleRun, RunOps, Asked, Registrations, AllHonoured, WasAsked, Possible, AddAfterClose;
    StartHonoured();
    RunInv(START, ops);
    RunHonoured(START, ops, map[]);
    var w := RunOps(START, ops);
    if Possible(w, op) && !AddAfterClose(w, op) {
      StepReports(w, op, Asked(START, ops, map[]));
    }
  }
}
