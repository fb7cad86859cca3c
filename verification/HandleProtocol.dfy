/** How calls on one port handle and its closing interleave.  Every call of epoll_ctl or epoll_wait looks the port up
    in the handle tree and takes a reference; epoll_close takes the port out of the tree, closes it, and deletes it
    once all the references are gone.  A step is one lock operation, one interlocked operation or one rendezvous. */
module HandleProtocol {

  const REF := 0x0000_0001
  const DESTROY := 0x1000_0000
  const POISON := 0x300d_ead0
  const WORD := 0x1_0000_0000

  /** An interlocked addition to a 32-bit word. */
  function Plus(word: nat, delta: int): nat {
    (word + delta) % WORD
  }

  /** The low 28 bits count references; the high 4 bits tell whether the lock is being destroyed. */
  function References(word: nat): nat {
    word % DESTROY
  }

  function Nibble(word: nat): nat {
    word / DESTROY
  }

  /** Where a call has got to.  A `patient` call waits without a timeout for events that do not come. */
  datatype Pc =
    | UserStart(patient: bool) | UserLocked(patient: bool) | UserReferenced(patient: bool) | UserMissed
    | Using(patient: bool) | Used | Signalling
    | CloserStart | CloserLocked | CloserRemoved | CloserReferenced | CloserMissed
    | Closing | Closed | Awaiting | Destroying | Deleting
    | Finished

  datatype State = State(calls: seq<Pc>, inTree: bool, word: nat, closed: bool, deleted: bool,
                         waited: bool, signals: nat, fault: bool)

  // ----- counting calls

  function Unit(condition: bool): nat {
    if condition then 1 else 0
  }

  function HasRef(pc: Pc): nat {
    Unit(pc.UserReferenced? || pc.Using? || pc.Used? || pc.CloserReferenced? || pc.Closing? || pc.Closed?)
  }

  function HoldsShared(pc: Pc): nat {
    Unit(pc.UserLocked? || pc.UserReferenced? || pc.UserMissed?)
  }

  function HoldsExclusive(pc: Pc): nat {
    Unit(pc.CloserLocked? || pc.CloserRemoved? || pc.CloserReferenced? || pc.CloserMissed?)
  }

  function IsSignalling(pc: Pc): nat {
    Unit(pc.Signalling?)
  }

  function BeforeClose(pc: Pc): nat {
    Unit(pc.CloserRemoved? || pc.CloserReferenced? || pc.Closing?)
  }

  function AfterClose(pc: Pc): nat {
    Unit(pc.Closed?)
  }

  function IsAwaiting(pc: Pc): nat {
    Unit(pc.Awaiting?)
  }

  function IsDestroying(pc: Pc): nat {
    Unit(pc.Destroying?)
  }

  function IsDeleting(pc: Pc): nat {
    Unit(pc.Deleting?)
  }

  function StepsLeft(pc: Pc): nat {
    match pc
    case UserStart(_) => 6
    case UserLocked(_) => 5
    case UserReferenced(_) => 4
    case UserMissed => 1
    case Using(_) => 3
    case Used => 2
    case Signalling => 1
    case CloserStart => 10
    case CloserLocked => 9
    case CloserRemoved => 8
    case CloserReferenced => 7
    case CloserMissed => 1
    case Closing => 6
    case Closed => 5
    case Awaiting => 4
    case Destroying => 3
    case Deleting => 1
    case Finished => 0
  }

  function Sum(calls: seq<Pc>, weight: Pc -> nat): nat {
    if calls == [] then 0 else weight(calls[0]) + Sum(calls[1..], weight)
  }

  lemma {:induction false} SumUpdate(calls: seq<Pc>, t: nat, pc: Pc, weight: Pc -> nat)
    requires t < |calls|
    ensures Sum(calls[t := pc], weight) == Sum(calls, weight) - weight(calls[t]) + weight(pc)
    ensures weight(calls[t]) <= Sum(calls, weight)
  {
    if t == 0 {
      assert calls[t := pc][1..] == calls[1..];
    } else {
      assert calls[t := pc][1..] == calls[1..][t - 1 := pc];
      SumUpdate(calls[1..], t - 1, pc, weight);
    }
  }

  lemma {:induction false} SumFinds(calls: seq<Pc>, weight: Pc -> nat) returns (t: nat)
    ensures Sum(calls, weight) > 0 ==> t < |calls| && weight(calls[t]) > 0
  {
    t := 0;
    if calls != [] && weight(calls[0]) == 0 {
      t := SumFinds(calls[1..], weight);
      t := t + 1;
    }
  }

  /** How many calls are in which situation. */
  datatype Tally = Tally(refs: nat, shared: nat, exclusive: nat, signalling: nat, before: nat, after: nat,
                         awaiting: nat, destroying: nat, deleting: nat)

  function Count(calls: seq<Pc>): Tally {
    Tally(Sum(calls, HasRef), Sum(calls, HoldsShared), Sum(calls, HoldsExclusive), Sum(calls, IsSignalling),
          Sum(calls, BeforeClose), Sum(calls, AfterClose), Sum(calls, IsAwaiting), Sum(calls, IsDestroying),
          Sum(calls, IsDeleting))
  }

  /** Moving one call on changes the counts by its old and its new situation. */
  predicate Moved(n: Tally, n': Tally, pc: Pc, pc': Pc) {
    && HasRef(pc) <= n.refs && n'.refs == n.refs - HasRef(pc) + HasRef(pc')
    && HoldsShared(pc) <= n.shared && n'.shared == n.shared - HoldsShared(pc) + HoldsShared(pc')
    && HoldsExclusive(pc) <= n.exclusive && n'.exclusive == n.exclusive - HoldsExclusive(pc) + HoldsExclusive(pc')
    && IsSignalling(pc) <= n.signalling && n'.signalling == n.signalling - IsSignalling(pc) + IsSignalling(pc')
    && BeforeClose(pc) <= n.before && n'.before == n.before - BeforeClose(pc) + BeforeClose(pc')
    && AfterClose(pc) <= n.after && n'.after == n.after - AfterClose(pc) + AfterClose(pc')
    && IsAwaiting(pc) <= n.awaiting && n'.awaiting == n.awaiting - IsAwaiting(pc) + IsAwaiting(pc')
    && IsDestroying(pc) <= n.destroying && n'.destroying == n.destroying - IsDestroying(pc) + IsDestroying(pc')
    && IsDeleting(pc) <= n.deleting && n'.deleting == n.deleting - IsDeleting(pc) + IsDeleting(pc')
  }

  lemma {:induction false} CountMoved(calls: seq<Pc>, t: nat, pc: Pc)
    requires t < |calls|
    ensures Moved(Count(calls), Count(calls[t := pc]), calls[t], pc)
  {
    hide HasRef, HoldsShared, HoldsExclusive, IsSignalling, BeforeClose, AfterClose, IsAwaiting, IsDestroying,
         IsDeleting, Sum;
    SumUpdate(calls, t, pc, HasRef);
    SumUpdate(calls, t, pc, HoldsShared);
    SumUpdate(calls, t, pc, HoldsExclusive);
    SumUpdate(calls, t, pc, IsSignalling);
    SumUpdate(calls, t, pc, BeforeClose);
    SumUpdate(calls, t, pc, AfterClose);
    SumUpdate(calls, t, pc, IsAwaiting);
    SumUpdate(calls, t, pc, IsDestroying);
    SumUpdate(calls, t, pc, IsDeleting);
  }

  // ----- the steps

  datatype Step =
    | LockShared(t: nat) | Find(t: nat) | UnlockShared(t: nat) | Work(t: nat) | Unref(t: nat)
    | Rendezvous(t: nat, waiter: nat)
    | LockExclusive(t: nat) | Remove(t: nat) | RefRemoved(t: nat) | UnlockExclusive(t: nat)
    | ClosePort(t: nat) | UnrefAndDestroy(t: nat) | Poison(t: nat) | Delete(t: nat)

  predicate At(s: State, t: nat, pc: Pc) {
    t < |s.calls| && s.calls[t] == pc
  }

  predicate Enabled(s: State, step: Step) {
    match step
    case LockShared(t) => t < |s.calls| && s.calls[t].UserStart? && Count(s.calls).exclusive == 0
    case Find(t) => t < |s.calls| && s.calls[t].UserLocked?
    case UnlockShared(t) => t < |s.calls| && (s.calls[t].UserReferenced? || s.calls[t].UserMissed?)
    case Work(t) => t < |s.calls| && s.calls[t].Using? && (s.calls[t].patient ==> s.closed)
    case Unref(t) => At(s, t, Used)
    case Rendezvous(t, waiter) => At(s, t, Signalling) && At(s, waiter, Awaiting)
    case LockExclusive(t) => At(s, t, CloserStart) && Count(s.calls).exclusive == 0 && Count(s.calls).shared == 0
    case Remove(t) => At(s, t, CloserLocked)
    case RefRemoved(t) => At(s, t, CloserRemoved)
    case UnlockExclusive(t) => At(s, t, CloserReferenced) || At(s, t, CloserMissed)
    case ClosePort(t) => At(s, t, Closing)
    case UnrefAndDestroy(t) => At(s, t, Closed)
    case Poison(t) => At(s, t, Destroying)
    case Delete(t) => At(s, t, Deleting)
  }

  function Goto(s: State, t: nat, pc: Pc): State
    requires t < |s.calls|
  {
    s.(calls := s.calls[t := pc])
  }

  /** Touching the port after it was deleted is a fault, and so is a failing assertion. */
  function Checked(s: State, ok: bool): (r: State)
    ensures r == s.(fault := r.fault)
  {
    s.(fault := s.fault || s.deleted || !ok)
  }

  /** Takes a reference: the counter must not overflow into the high bits, and the lock must not be destroyed. */
  function Ref(s: State): (r: State)
    ensures r == s.(word := r.word, fault := r.fault)
  {
    var word := Plus(s.word, REF);
    Checked(s.(word := word), Nibble(word) == 0)
  }

  function Do(s: State, step: Step): State
    requires Enabled(s, step)
  {
    var t := step.t;
    match step
    case LockShared(_) => Goto(s, t, UserLocked(s.calls[t].patient))
    case Find(_) => if s.inTree then Goto(Ref(s), t, UserReferenced(s.calls[t].patient)) else Goto(s, t, UserMissed)
    case UnlockShared(_) => Goto(s, t, if s.calls[t].UserReferenced? then Using(s.calls[t].patient) else Finished)
    case Work(_) => Goto(Checked(s, true), t, Used)
    case Unref(_) =>
      var word := Plus(s.word, -REF);
      Goto(Checked(s.(word := word), Nibble(word) <= 1), t, if word == DESTROY then Signalling else Finished)
    case Rendezvous(_, waiter) => Goto(Goto(s.(signals := s.signals + 1), t, Finished), waiter, Destroying)
    case LockExclusive(_) => Goto(s, t, CloserLocked)
    case Remove(_) => if s.inTree then Goto(s.(inTree := false), t, CloserRemoved) else Goto(s, t, CloserMissed)
    case RefRemoved(_) => Goto(Ref(s), t, CloserReferenced)
    case UnlockExclusive(_) => Goto(s, t, if s.calls[t].CloserReferenced? then Closing else Finished)
    case ClosePort(_) => Goto(Checked(s.(closed := true), true), t, Closed)
    case UnrefAndDestroy(_) =>
      var word := Plus(s.word, DESTROY - REF);
      var waits := References(word) != 0;
      Goto(Checked(s.(word := word, waited := waits), Nibble(word) == 1), t, if waits then Awaiting else Destroying)
    case Poison(_) => Goto(Checked(s.(word := POISON), s.word == DESTROY), t, Deleting)
    case Delete(_) => Goto(Checked(s, s.closed).(deleted := true), t, Finished)
  }

  // ----- what always holds

  /** The owner is the call that took the port out of the tree. */
  ghost predicate Coherent(s: State, n: Tally) {
    && !s.fault
    && (n.exclusive == 0 || (n.exclusive == 1 && n.shared == 0))
    && n.refs < DESTROY
    && (s.inTree ==> !s.deleted)
    && n.before + n.after + n.awaiting + n.destroying + n.deleting == Unit(!s.inTree && !s.deleted)
    && s.word == (if n.deleting == 1 || s.deleted then POISON
      else if n.awaiting + n.destroying == 1 then DESTROY + n.refs else n.refs)
    && n.signalling == Unit(n.awaiting == 1 && n.refs == 0)
    && (n.destroying == 1 || n.deleting == 1 || s.deleted ==> n.refs == 0)
    && (n.after == 1 || n.awaiting == 1 || n.destroying == 1 || n.deleting == 1 || s.deleted ==> s.closed)
    && (s.inTree || n.before == 1 || n.after == 1 ==> !s.waited)
    && (n.awaiting == 1 ==> s.waited)
    && s.signals == Unit(s.waited && n.awaiting == 0)
  }

  ghost predicate Inv(s: State) {
    Coherent(s, Count(s.calls))
  }

  /** One reference too many: the 28-bit counter overflows. */
  ghost predicate Overflow(s: State, step: Step) {
    (step.RefRemoved? || (step.Find? && s.inTree)) && Count(s.calls).refs + 1 == 0x1000_0000
  }

  /** What the interlocked additions do to a word that counts n references. */
  lemma {:induction false} Words(n: nat)
    requires n < DESTROY
    ensures n + 1 < DESTROY ==> Plus(n, REF) == n + 1 && Nibble(n + 1) == 0
    ensures n > 0 ==> Plus(n, -REF) == n - 1 && Nibble(n - 1) == 0
    ensures n > 0 ==> Plus(DESTROY + n, -REF) == DESTROY + (n - 1) && Nibble(DESTROY + (n - 1)) == 1
    ensures n > 0 ==> Plus(n, DESTROY - REF) == DESTROY + (n - 1) && References(DESTROY + (n - 1)) == n - 1
  {
  }

  /** The word has 32 bits. */
  lemma {:induction false} WordWraps()
    ensures Plus(0xffff_ffff, REF) == 0 && Plus(0, -REF) == 0xffff_ffff
  {
  }

  /** Whoever comes upon the word of a destroyed lock trips an assertion. */
  lemma {:induction false} PoisonCaught(s: State, step: Step)
    requires Enabled(s, step) && s.word == 0x300d_ead0
    requires (step.Find? && s.inTree) || step.RefRemoved? || step.Unref? || step.UnrefAndDestroy?
    ensures Do(s, step).fault
  {
    hide Count;
  }

  /** So do a deletion of a port that is not closed, and a destruction while references are left. */
  lemma {:induction false} MisuseCaught(s: State, step: Step)
    requires Enabled(s, step) && ((step.Delete? && !s.closed) || (step.Poison? && s.word != 0x1000_0000))
    ensures Do(s, step).fault
  {
    hide Count;
  }

  function Patience(pc: Pc): bool {
    match pc
    case UserStart(patient) => patient
    case UserLocked(patient) => patient
    case UserReferenced(patient) => patient
    case Using(patient) => patient
    case _ => false
  }

  /** On its way to the port a call stays one with or without a timeout. */
  lemma {:induction false} PatienceKept(s: State, step: Step)
    requires Enabled(s, step) && (step.LockShared? || (step.Find? && s.inTree) || step.UnlockShared?)
    ensures Patience(Do(s, step).calls[step.t]) == Patience(s.calls[step.t])
  {
    hide Count, Ref, Checked;
  }

  /** A call without a timeout goes on waiting while the port is open, and no other does. */
  lemma {:induction false} WaitsWhileOpen(s: State, t: nat)
    requires t < |s.calls| && s.calls[t].Using?
    ensures Enabled(s, Work(t)) <==> !s.calls[t].patient || s.closed
    ensures forall step | Enabled(s, step) && step.t == t :: step == Work(t)
  {
  }

  lemma {:induction false} SharedKeeps(s: State, step: Step)
    requires Inv(s) && Enabled(s, step) && (step.LockShared? || step.UnlockShared?)
    ensures Inv(Do(s, step))
  {
    hide Count, Plus, Nibble, References;
    CountMoved(s.calls, step.t, Do(s, step).calls[step.t]);
  }

  lemma {:induction false} ExclusiveKeeps(s: State, step: Step)
    requires Inv(s) && Enabled(s, step) && (step.LockExclusive? || step.UnlockExclusive?)
    ensures Inv(Do(s, step))
  {
    hide Count, Plus, Nibble, References;
    CountMoved(s.calls, step.t, Do(s, step).calls[step.t]);
  }

  lemma {:induction false} WorkKeeps(s: State, step: Step)
    requires Inv(s) && Enabled(s, step) && step.Work?
    ensures Inv(Do(s, step))
  {
    hide Count, Plus, Nibble, References;
    CountMoved(s.calls, step.t, Do(s, step).calls[step.t]);
  }

  lemma {:induction false} RemoveKeeps(s: State, step: Step)
    requires Inv(s) && Enabled(s, step) && step.Remove?
    ensures Inv(Do(s, step))
  {
    hide Count, Plus, Nibble, References;
    CountMoved(s.calls, step.t, Do(s, step).calls[step.t]);
  }

  lemma {:induction false} FindKeeps(s: State, step: Step)
    requires Inv(s) && Enabled(s, step) && step.Find? && !Overflow(s, step)
    ensures Inv(Do(s, step))
  {
    hide Count, Plus, Nibble, References;
    Words(Count(s.calls).refs);
    CountMoved(s.calls, step.t, Do(s, step).calls[step.t]);
  }

  lemma {:induction false} RefKeeps(s: State, step: Step)
    requires Inv(s) && Enabled(s, step) && step.RefRemoved? && !Overflow(s, step)
    ensures Inv(Do(s, step))
  {
    hide Count, Plus, Nibble, References;
    Words(Count(s.calls).refs);
    CountMoved(s.calls, step.t, Do(s, step).calls[step.t]);
  }

  /** Dropping a reference empties the word of a lock that is being destroyed exactly when it was the last one. */
  lemma {:induction false} UnrefWord(s: State, n: Tally)
    requires Coherent(s, n) && n.refs > 0
    ensures !s.deleted && !s.fault && s.word > 0 && n.signalling == 0
    ensures Plus(s.word, -REF) == s.word - 1 && Nibble(s.word - 1) <= 1
    ensures s.word - 1 == DESTROY <==> n.awaiting == 1 && n.refs == 1
  {
    hide Plus, Nibble, References;
    Words(n.refs);
  }

  lemma {:induction false} UnrefCoherent(s: State, n: Tally, s': State)
    requires Coherent(s, n) && n.refs > 0 && s' == s.(word := s'.word, calls := s'.calls) && s'.word == s.word - 1
    ensures Coherent(s', n.(refs := n.refs - 1, signalling := Unit(n.awaiting == 1 && n.refs == 1)))
  {
  }

  lemma {:induction false} UnrefMoved(n: Tally, n': Tally, pc': Pc)
    requires Moved(n, n', Used, pc') && (pc' == Signalling || pc' == Finished)
    ensures n.refs > 0 && n' == n.(refs := n.refs - 1, signalling := n.signalling + Unit(pc' == Signalling))
  {
  }

  lemma {:induction false} UnrefKeeps(s: State, step: Step)
    requires Inv(s) && Enabled(s, step) && step.Unref?
    ensures Inv(Do(s, step))
  {
    hide Count, Moved, Coherent, Plus, Nibble, References;
    var n, s' := Count(s.calls), Do(s, step);
    var pc' := s'.calls[step.t];
    CountMoved(s.calls, step.t, pc');
    assert s'.calls == s.calls[step.t := pc'];
    UnrefMoved(n, Count(s'.calls), pc');
    UnrefWord(s, n);
    UnrefCoherent(s, n, s');
  }

  lemma {:induction false} RendezvousMoved(n: Tally, mid: Tally, n': Tally)
    requires Moved(n, mid, Signalling, Finished) && Moved(mid, n', Awaiting, Destroying)
    ensures n.signalling > 0 && n.awaiting > 0
    ensures n' == n.(signalling := n.signalling - 1, awaiting := n.awaiting - 1, destroying := n.destroying + 1)
  {
  }

  lemma {:induction false} RendezvousKeeps(s: State, step: Step)
    requires Inv(s) && Enabled(s, step) && step.Rendezvous?
    ensures Inv(Do(s, step))
  {
    hide Count, Moved;
    var mid := s.calls[step.t := Finished];
    CountMoved(s.calls, step.t, Finished);
    CountMoved(mid, step.waiter, Destroying);
    RendezvousMoved(Count(s.calls), Count(mid), Count(mid[step.waiter := Destroying]));
  }

  lemma {:induction false} CloseKeeps(s: State, step: Step)
    requires Inv(s) && Enabled(s, step) && (step.ClosePort? || step.Delete?)
    ensures Inv(Do(s, step))
  {
    hide Count, Plus, Nibble, References;
    CountMoved(s.calls, step.t, Do(s, step).calls[step.t]);
  }

  lemma {:induction false} DestroyKeeps(s: State, step: Step)
    requires Inv(s) && Enabled(s, step) && (step.UnrefAndDestroy? || step.Poison?)
    ensures Inv(Do(s, step))
  {
    hide Count, Plus, Nibble, References;
    Words(Count(s.calls).refs);
    CountMoved(s.calls, step.t, Do(s, step).calls[step.t]);
  }

  lemma {:induction false} StepInv(s: State, step: Step)
    requires Inv(s) && Enabled(s, step) && !Overflow(s, step)
    ensures Inv(Do(s, step))
  {
    hide Inv, Do, Enabled, Overflow;
    match step
    case Work(_) => WorkKeeps(s, step);
    case Remove(_) => RemoveKeeps(s, step);
    case Find(_) => FindKeeps(s, step);
    case RefRemoved(_) => RefKeeps(s, step);
    case Unref(_) => UnrefKeeps(s, step);
    case Rendezvous(_, _) => RendezvousKeeps(s, step);
    case ClosePort(_) => CloseKeeps(s, step);
    case Delete(_) => CloseKeeps(s, step);
    case UnrefAndDestroy(_) => DestroyKeeps(s, step);
    case Poison(_) => DestroyKeeps(s, step);
    case LockShared(_) => SharedKeeps(s, step);
    case UnlockShared(_) => SharedKeeps(s, step);
    case _ => ExclusiveKeeps(s, step);
  }

  /** No assertion fails and the deleted port is never touched, unless 2^28 references are held at once. */
  lemma {:induction false} FaultExactly(s: State, step: Step)
    requires Inv(s) && Enabled(s, step)
    ensures Do(s, step).fault <==> Overflow(s, step)
  {
    if !Overflow(s, step) {
      StepInv(s, step);
      hide Do, Enabled, Count;
    } else {
      hide Count;
    }
  }

  /** Whoever is about to delete the port is the only call that can still reach it. */
  lemma {:induction false} AloneAtDelete(s: State, t: nat, u: nat)
    requires Inv(s) && At(s, t, Deleting) && u < |s.calls| && u != t
    ensures var pc := s.calls[u];
            pc.UserStart? || pc.UserLocked? || pc.UserMissed? || pc.CloserStart? || pc.CloserLocked? ||
              pc.CloserMissed? || pc.Finished?
    ensures !s.inTree && s.closed
  {
    hide Count, Inv;
    AtMost(s, t, u);
  }

  lemma {:induction false} AtMost(s: State, t: nat, u: nat)
    requires Inv(s) && At(s, t, Deleting) && u < |s.calls| && u != t
    ensures !s.inTree && s.closed
    ensures var pc := s.calls[u];
      && HasRef(pc) == 0 && IsSignalling(pc) == 0 && BeforeClose(pc) == 0 && AfterClose(pc) == 0 && IsAwaiting(pc) == 0
      && IsDestroying(pc) == 0 && IsDeleting(pc) == 0
  {
    hide Count;
    CountMoved(s.calls, t, Finished);
    CountMoved(s.calls[t := Finished], u, Finished);
    CountMoved(s.calls, u, Finished);
  }

  lemma {:induction false} RefsAtMost(calls: seq<Pc>)
    ensures Sum(calls, HasRef) <= |calls|
  {
    if calls != [] {
      RefsAtMost(calls[1..]);
    }
  }

  /** With fewer than 2^28 calls under way, no step ever takes a reference too many. */
  lemma {:induction false} NoOverflow(s: State, step: Step)
    requires Enabled(s, step) && |s.calls| < 0x1000_0000
    ensures !Overflow(s, step)
  {
    hide Sum;
    SumUpdate(s.calls, step.t, Used, HasRef);
    RefsAtMost(s.calls[step.t := Used]);
  }

  // ----- no schedule gets stuck

  /** A call with nothing to do: it has returned, or it waits without a timeout on a port that is open. */
  predicate Resting(s: State, t: nat)
    requires t < |s.calls|
  {
    s.calls[t].Finished? || (s.calls[t] == Using(true) && !s.closed)
  }

  /** Some step is always possible unless every call is at rest. */
  lemma {:induction false} Progress(s: State, t: nat) returns (step: Step)
    requires Inv(s) && t < |s.calls| && !Resting(s, t)
    ensures Enabled(s, step)
  {
    hide Sum;
    CountMoved(s.calls, t, Finished);
    var e := SumFinds(s.calls, HoldsExclusive);
    var h := SumFinds(s.calls, HoldsShared);
    if Count(s.calls).exclusive > 0 {
      step := Alone(s, e);
    } else if Count(s.calls).shared > 0 {
      step := Alone(s, h);
    } else if s.calls[t].Signalling? {
      var w := SumFinds(s.calls, IsAwaiting);
      step := Rendezvous(t, w);
    } else if s.calls[t].Awaiting? {
      var r := SumFinds(s.calls, HasRef);
      if Count(s.calls).refs > 0 {
        step := Alone(s, r);
      } else {
        var g := SumFinds(s.calls, IsSignalling);
        step := Rendezvous(g, t);
      }
    } else {
      step := Alone(s, t);
    }
  }

  /** A call that waits for nobody can go on. */
  lemma {:induction false} Alone(s: State, t: nat) returns (step: Step)
    requires t < |s.calls| && !Resting(s, t) && !s.calls[t].Signalling? && !s.calls[t].Awaiting?
    requires s.calls[t].UserStart? || s.calls[t].CloserStart? ==>
      Count(s.calls).exclusive == 0 && Count(s.calls).shared == 0
    ensures Enabled(s, step)
  {
    hide Count;
    match s.calls[t]
    case UserStart(_) => step := LockShared(t);
    case UserLocked(_) => step := Find(t);
    case UserReferenced(_) => step := UnlockShared(t);
    case UserMissed => step := UnlockShared(t);
    case Using(_) => step := Work(t);
    case Used => step := Unref(t);
    case CloserStart => step := LockExclusive(t);
    case CloserLocked => step := Remove(t);
    case CloserRemoved => step := RefRemoved(t);
    case CloserReferenced => step := UnlockExclusive(t);
    case CloserMissed => step := UnlockExclusive(t);
    case Closing => step := ClosePort(t);
    case Closed => step := UnrefAndDestroy(t);
    case Destroying => step := Poison(t);
    case Deleting => step := Delete(t);
  }

  predicate OfUser(step: Step) {
    step.LockShared? || step.Find? || step.UnlockShared? || step.Work? || step.Unref?
  }

  lemma {:induction false} UserShrinks(s: State, step: Step)
    requires Enabled(s, step) && OfUser(step)
    ensures step.t < |s.calls| && Do(s, step).calls == s.calls[step.t := Do(s, step).calls[step.t]]
    ensures StepsLeft(Do(s, step).calls[step.t]) < StepsLeft(s.calls[step.t])
  {
    hide Count, Plus, Nibble, References, Ref, Checked;
  }

  lemma {:induction false} CloserShrinks(s: State, step: Step)
    requires Enabled(s, step) && !OfUser(step) && !step.Rendezvous?
    ensures step.t < |s.calls| && Do(s, step).calls == s.calls[step.t := Do(s, step).calls[step.t]]
    ensures StepsLeft(Do(s, step).calls[step.t]) < StepsLeft(s.calls[step.t])
  {
    hide Count, Plus, Nibble, References, Ref, Checked;
  }

  lemma {:induction false} StepShrinks(s: State, step: Step)
    requires Enabled(s, step)
    ensures Sum(Do(s, step).calls, StepsLeft) < Sum(s.calls, StepsLeft)
  {
    hide Sum, Count, Plus, Nibble, References;
    if step.Rendezvous? {
      SumUpdate(s.calls, step.t, Finished, StepsLeft);
      SumUpdate(s.calls[step.t := Finished], step.waiter, Destroying, StepsLeft);
    } else {
      hide Do, Enabled, StepsLeft, OfUser;
      if OfUser(step) {
        UserShrinks(s, step);
      } else {
        CloserShrinks(s, step);
      }
      SumUpdate(s.calls, step.t, Do(s, step).calls[step.t], StepsLeft);
    }
  }

  // ----- whole runs

  predicate Starts(pc: Pc) {
    pc.UserStart? || pc.CloserStart?
  }

  /** A port that has just been created, and the calls that will be made on its handle. */
  function Start(calls: seq<Pc>): State {
    State(calls, true, 0, false, false, false, 0, false)
  }

  ghost predicate Legal(s: State, steps: seq<Step>)
    decreases |steps|
  {
    steps == [] || (Enabled(s, steps[0]) && !Overflow(s, steps[0]) && Legal(Do(s, steps[0]), steps[1..]))
  }

  ghost function Run(s: State, steps: seq<Step>): State
    requires Legal(s, steps)
    decreases |steps|
  {
    if steps == [] then s else Run(Do(s, steps[0]), steps[1..])
  }

  lemma {:induction false} SumZero(calls: seq<Pc>, weight: Pc -> nat)
    requires forall pc | pc in calls :: weight(pc) == 0
    ensures Sum(calls, weight) == 0
  {
    if calls != [] {
      assert calls[0] in calls && forall pc | pc in calls[1..] :: pc in calls;
      SumZero(calls[1..], weight);
    }
  }

  lemma {:induction false} StartInv(calls: seq<Pc>)
    requires forall pc | pc in calls :: Starts(pc)
    ensures Inv(Start(calls))
  {
    hide Sum;
    SumZero(calls, HasRef);
    SumZero(calls, HoldsShared);
    SumZero(calls, HoldsExclusive);
    SumZero(calls, IsSignalling);
    SumZero(calls, BeforeClose);
    SumZero(calls, AfterClose);
    SumZero(calls, IsAwaiting);
    SumZero(calls, IsDestroying);
    SumZero(calls, IsDeleting);
  }

  /** A call that closes has found the port in the tree or knows that somebody else has taken it out. */
  ghost predicate ClosersSeen(calls: seq<Pc>, s: State) {
    |s.calls| == |calls| && forall t | 0 <= t < |calls| && calls[t].CloserStart? ::
      s.calls[t].CloserStart? || s.calls[t].CloserLocked? || !s.inTree
  }

  /** A step moves one call on, or the two of a rendezvous, and never puts the port back into the tree. */
  lemma {:induction false} StepFrame(s: State, step: Step)
    requires Enabled(s, step)
    ensures var s', t := Do(s, step), step.t;
      && (step.Rendezvous? ==> s'.calls == s.calls[t := Finished][step.waiter := Destroying])
      && (!step.Rendezvous? ==> t < |s.calls| == |s'.calls| && s'.calls == s.calls[t := s'.calls[t]])
      && (s'.inTree ==> s.inTree)
  {
    hide Count, Plus, Nibble, References;
  }

  lemma {:induction false} StepCloser(s: State, step: Step)
    requires Enabled(s, step) && IsCloser(s.calls[step.t]) && !step.Rendezvous?
    requires s.calls[step.t].CloserStart? || s.calls[step.t].CloserLocked? || !s.inTree
    ensures var pc' := Do(s, step).calls[step.t];
      IsCloser(pc') && (pc'.CloserStart? || pc'.CloserLocked? || !Do(s, step).inTree)
  {
    hide Count, Plus, Nibble, References;
  }

  lemma {:induction false} StepSeen(calls: seq<Pc>, s: State, step: Step)
    requires ClosersSeen(calls, s) && Enabled(s, step)
    requires forall t | 0 <= t < |calls| && calls[t].CloserStart? :: IsCloser(s.calls[t])
    ensures ClosersSeen(calls, Do(s, step))
    ensures forall t | 0 <= t < |calls| && calls[t].CloserStart? :: IsCloser(Do(s, step).calls[t])
  {
    hide Do;
    StepFrame(s, step);
    var t := step.t;
    if !step.Rendezvous? && IsCloser(s.calls[t]) && (s.calls[t].CloserStart? || s.calls[t].CloserLocked? || !s.inTree) {
      StepCloser(s, step);
    }
  }

  predicate IsCloser(pc: Pc) {
    pc.CloserStart? || pc.CloserLocked? || pc.CloserRemoved? || pc.CloserReferenced? || pc.CloserMissed? ||
      pc.Closing? ||
    pc.Closed? || pc.Awaiting? || pc.Destroying? || pc.Deleting? || pc.Finished?
  }

  function Deletes(steps: seq<Step>): nat {
    if steps == [] then 0 else Unit(steps[0].Delete?) + Deletes(steps[1..])
  }

  lemma {:induction false} RunKeeps(calls: seq<Pc>, s: State, steps: seq<Step>)
    requires Inv(s) && Legal(s, steps) && ClosersSeen(calls, s)
    requires forall t | 0 <= t < |calls| && calls[t].CloserStart? :: IsCloser(s.calls[t])
    ensures var s' := Run(s, steps);
      && Inv(s') && ClosersSeen(calls, s') && |steps| + Sum(s'.calls, StepsLeft) <= Sum(s.calls, StepsLeft)
      && Unit(s.deleted) + Deletes(steps) == Unit(s'.deleted)
      && forall t | 0 <= t < |calls| && calls[t].CloserStart? :: IsCloser(s'.calls[t])
    decreases |steps|
  {
    hide Inv, ClosersSeen, Do, Enabled, Overflow;
    if steps != [] {
      StepInv(s, steps[0]);
      StepShrinks(s, steps[0]);
      StepSeen(calls, s, steps[0]);
      StepDeletes(s, steps[0]);
      RunKeeps(calls, Do(s, steps[0]), steps[1..]);
    }
  }

  lemma {:induction false} StepDeletes(s: State, step: Step)
    requires Inv(s) && Enabled(s, step)
    ensures Unit(Do(s, step).deleted) == Unit(s.deleted) + Unit(step.Delete?)
  {
    hide Count;
    CountMoved(s.calls, step.t, Finished);
  }

  predicate IsUser(pc: Pc) {
    pc.UserStart? || pc.UserLocked? || pc.UserReferenced? || pc.UserMissed? || pc.Using? || pc.Used? ||
      pc.Signalling? || pc.Finished?
  }

  ghost predicate NeverClosed(s: State) {
    s.inTree && !s.closed && forall t | 0 <= t < |s.calls| :: IsUser(s.calls[t])
  }

  lemma {:induction false} StepUsers(s: State, step: Step)
    requires NeverClosed(s) && Enabled(s, step)
    ensures NeverClosed(Do(s, step))
  {
    hide Count;
    assert IsUser(s.calls[step.t]);
  }

  lemma {:induction false} RunUsers(s: State, steps: seq<Step>)
    requires NeverClosed(s) && Legal(s, steps)
    ensures NeverClosed(Run(s, steps))
    decreases |steps|
  {
    hide Enabled, Do, Overflow, NeverClosed;
    if steps != [] {
      StepUsers(s, steps[0]);
      RunUsers(Do(s, steps[0]), steps[1..]);
    }
  }

  /** Every schedule ends, and in every state on the way nothing has failed, the port is deleted at most once, and the
      event is signalled at most once, and only for a closing call that waits for it. */
  lemma {:induction false} EverySchedule(calls: seq<Pc>, steps: seq<Step>)
    requires (forall pc | pc in calls :: Starts(pc)) && Legal(Start(calls), steps)
    ensures |steps| <= Sum(calls, StepsLeft)
    ensures var s := Run(Start(calls), steps);
      && !s.fault && Deletes(steps) == Unit(s.deleted) && s.signals <= Unit(s.waited)
      && (s.deleted ==> s.closed && s.signals == Unit(s.waited) && s.word == 0x300d_ead0)
  {
    hide Count, Run;
    StartInv(calls);
    StartSeen(calls);
    RunKeeps(calls, Start(calls), steps);
  }

  lemma {:induction false} StartSeen(calls: seq<Pc>)
    ensures ClosersSeen(calls, Start(calls)) &&
      (forall t | 0 <= t < |calls| && calls[t].CloserStart? :: IsCloser(Start(calls).calls[t]))
  {
  }

  /** Where a schedule ends because no step is left: if the handle was closed by anyone, all calls have returned and the
      port was deleted once; otherwise only calls without a timeout are left, each with its reference. */
  lemma {:induction false} WhereItEnds(calls: seq<Pc>, steps: seq<Step>)
    requires (forall pc | pc in calls :: Starts(pc)) && Legal(Start(calls), steps)
    requires forall step :: !Enabled(Run(Start(calls), steps), step)
    ensures var s := Run(Start(calls), steps);
      && ((exists pc | pc in calls :: pc.CloserStart?) ==>
           s.deleted && Deletes(steps) == 1 && forall t | 0 <= t < |s.calls| :: s.calls[t].Finished?)
      && ((forall pc | pc in calls :: pc.UserStart?) ==>
           s.inTree && !s.closed && s.word == Count(s.calls).refs && forall t | 0 <= t < |s.calls| :: Resting(s, t))
  {
    hide Count, Run, Inv, Enabled;
    StartInv(calls);
    StartSeen(calls);
    RunKeeps(calls, Start(calls), steps);
    var s := Run(Start(calls), steps);
    forall t | 0 <= t < |s.calls|
      ensures Resting(s, t)
    {
      if !Resting(s, t) {
        var step := Progress(s, t);
        assert false;
      }
    }
    if exists pc | pc in calls :: pc.CloserStart? {
      var c :| 0 <= c < |calls| && calls[c].CloserStart?;
      assert Resting(s, c) && IsCloser(s.calls[c]);
      AllDeleted(s, c);
    } else if forall pc | pc in calls :: pc.UserStart? {
      forall t | 0 <= t < |calls|
        ensures IsUser(calls[t])
      {
        assert calls[t] in calls;
      }
      RunUsers(Start(calls), steps);
      InTreeWord(s);
    }
  }

  lemma {:induction false} InTreeWord(s: State)
    requires Inv(s) && s.inTree
    ensures s.word == Count(s.calls).refs
  {
    hide Count;
  }

  lemma {:induction false} AllDeleted(s: State, c: nat)
    requires Inv(s) && c < |s.calls| && s.calls[c].Finished? && !s.inTree
    requires forall t | 0 <= t < |s.calls| :: Resting(s, t)
    ensures s.deleted && forall t | 0 <= t < |s.calls| :: s.calls[t].Finished?
  {
    hide Sum;
    forall pc | pc in s.calls
      ensures pc.Finished? || pc.Using?
    {
      var t :| 0 <= t < |s.calls| && s.calls[t] == pc;
      assert Resting(s, t);
    }
    SumZero(s.calls, BeforeClose);
    SumZero(s.calls, AfterClose);
    SumZero(s.calls, IsAwaiting);
    SumZero(s.calls, IsDestroying);
    SumZero(s.calls, IsDeleting);
    forall t | 0 <= t < |s.calls|
      ensures s.calls[t].Finished?
    {
      SumUpdate(s.calls, t, Finished, HasRef);
    }
  }
}
