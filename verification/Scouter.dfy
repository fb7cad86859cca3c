/** The status-sync module: who has subscribed, what each group was told last, and when.  Time is a steady clock in
    nanoseconds.  What a snapshot of a group holds, and its hash, come with the characters of a tick. */
module Scouter {

  import opened Sequences

  type Time = int
  type CharId = nat
  type ZoneId = nat

  const SECOND: Time := 1_000_000_000
  const POLL_INTERVAL := SECOND
  const HEARTBEAT_INTERVAL := 15 * SECOND
  const SUBSCRIPTION_TTL := 120 * SECOND
  const CACHE_TTL := 300 * SECOND
  const CLEANUP_INTERVAL := 60 * SECOND

  datatype GroupKey = GroupKey(pointer: nat, zone: ZoneId, alliance: bool)

  datatype Record = Record(member: CharId, status: nat, icon: nat, remaining: nat, sub: nat, tier: nat, slot: nat,
      flags: nat)

  datatype Char = Char(id: CharId, key: GroupKey, partySlot: nat, records: seq<Record>, hash: nat)

  datatype Group = Group(hash: nat, initialized: bool, lastBroadcast: Time, lastTouched: Time)

  const BLANK := Group(0, false, 0, 0)

  /** One snapshot sent to one viewer. */
  datatype Sent = Sent(viewer: CharId, alliance: bool, partySlot: nat, records: seq<Record>, sequence: nat)

  datatype State = State(subscriptions: map<CharId, Time>, nextPoll: map<ZoneId, Time>, groups: map<GroupKey, Group>,
                         nextCleanup: Time, sequence: nat)

  datatype Batch = Batch(key: GroupKey, representative: Char, viewers: seq<Char>)

  /** `order` is the order in which the hash table of batches is walked. */
  datatype Event =
    | Handshake(now: Time, viewer: Char)
    | ZoneOut(now: Time, id: CharId)
    | Tick(now: Time, zone: ZoneId, chars: seq<Char>, order: seq<Batch> -> seq<Batch>)

  function NextSequence(sequence: nat): nat {
    (sequence + 1) % 0x1_0000
  }

  function SendTo(viewer: Char, records: seq<Record>, sequence: nat): Sent {
    Sent(viewer.id, viewer.key.alliance, viewer.partySlot, records, sequence)
  }

  // ----- one tick

  predicate Subscribed(subscriptions: map<CharId, Time>, id: CharId, now: Time) {
    id in subscriptions && now - subscriptions[id] <= SUBSCRIPTION_TTL
  }

  /** A subscribed character joins the batch of its group, or opens one. */
  function AddViewer(batches: seq<Batch>, c: Char): seq<Batch> {
    if batches == [] then [Batch(c.key, c, [c])]
    else if batches[0].key == c.key then [batches[0].(viewers := batches[0].viewers + [c])] + batches[1..]
    else [batches[0]] + AddViewer(batches[1..], c)
  }

  function Batches(subscriptions: map<CharId, Time>, chars: seq<Char>, now: Time): seq<Batch> {
    if chars == [] then []
    else
      var rest, c := Batches(subscriptions, chars[..|chars| - 1], now), chars[|chars| - 1];
      if Subscribed(subscriptions, c.id, now) then AddViewer(rest, c) else rest
  }

  function GroupOf(groups: map<GroupKey, Group>, key: GroupKey): Group {
    if key in groups then groups[key] else BLANK
  }

  /** The group is told again when its snapshot has changed, or when it was not told for a while. */
  predicate Due(g: Group, hash: nat, now: Time) {
    !g.initialized || g.hash != hash || now - g.lastBroadcast >= HEARTBEAT_INTERVAL
  }

  function Touched(g: Group, hash: nat, now: Time): Group {
    if Due(g, hash, now) then Group(hash, true, now, now) else g.(lastTouched := now)
  }

  function SendAll(viewers: seq<Char>, records: seq<Record>, sequence: nat): seq<Sent> {
    if viewers == [] then []
    else SendAll(viewers[..|viewers| - 1], records, sequence) + [SendTo(viewers[|viewers| - 1], records, sequence)]
  }

  /** Groups, sequence number and snapshots sent after a batch. */
  function Broadcast(groups: map<GroupKey, Group>, sequence: nat, b: Batch, now: Time)
      : (map<GroupKey, Group>, nat, seq<Sent>)
  {
    var g := GroupOf(groups, b.key);
    var groups := groups[b.key := Touched(g, b.representative.hash, now)];
    if Due(g, b.representative.hash, now) then
      (groups, NextSequence(sequence), SendAll(b.viewers, b.representative.records, NextSequence(sequence)))
    else (groups, sequence, [])
  }

  function BroadcastAll(groups: map<GroupKey, Group>, sequence: nat, batches: seq<Batch>, now: Time)
      : (map<GroupKey, Group>, nat, seq<Sent>)
  {
    if batches == [] then (groups, sequence, [])
    else
      var (groups, sequence, sent) := BroadcastAll(groups, sequence, batches[..|batches| - 1], now);
      var (groups, sequence, more) := Broadcast(groups, sequence, batches[|batches| - 1], now);
      (groups, sequence, sent + more)
  }

  function Cleanup(s: State, now: Time): State {
    if now < s.nextCleanup then s
    else s.(nextCleanup := now + CLEANUP_INTERVAL,
            subscriptions := map id | id in s.subscriptions && now - s.subscriptions[id] <= SUBSCRIPTION_TTL ::
              s.subscriptions[id],
            groups := map k | k in s.groups && now - s.groups[k].lastTouched <= CACHE_TTL :: s.groups[k])
  }

  function TickWith(s: State, now: Time, zone: ZoneId, chars: seq<Char>, order: seq<Batch> -> seq<Batch>,
      evict: bool): (State, seq<Sent>) {
    if zone in s.nextPoll && now < s.nextPoll[zone] then (s, [])
    else
      var (groups, sequence, sent) := BroadcastAll(s.groups, s.sequence, order(Batches(s.subscriptions, chars, now)),
        now);
      var s := s.(nextPoll := s.nextPoll[zone := now + POLL_INTERVAL], groups := groups, sequence := sequence);
      (if evict then Cleanup(s, now) else s, sent)
  }

  function Step(s: State, e: Event, evict: bool): (State, seq<Sent>) {
    match e
    case Handshake(now, viewer) =>
      var sequence := NextSequence(s.sequence);
      (s.(subscriptions := s.subscriptions[viewer.id := now], sequence := sequence),
        [SendTo(viewer, viewer.records, sequence)])
    case ZoneOut(_, id) => (s.(subscriptions := s.subscriptions - {id}), [])
    case Tick(now, zone, chars, order) => TickWith(s, now, zone, chars, order, evict)
  }

  const START := State(map[], map[], map[], 0, 0)

  function Run(s: State, events: seq<Event>, evict: bool): (State, seq<Sent>) {
    if events == [] then (s, [])
    else
      var (s, sent) := Run(s, events[..|events| - 1], evict);
      var (s, more) := Step(s, events[|events| - 1], evict);
      (s, sent + more)
  }

  // ----- eviction cannot be observed

  /** The clock is steady. */
  ghost predicate Steady(events: seq<Event>) {
    forall i, j | 0 <= i < j < |events| :: events[i].now <= events[j].now
  }

  function Clock(events: seq<Event>, start: Time): Time {
    if events == [] then start else events[|events| - 1].now
  }

  /** A group was told no later than it was last seen, and it was not seen in the future. */
  ghost predicate Ordered(g: Group, clock: Time) {
    g.initialized && g.lastBroadcast <= g.lastTouched <= clock
  }

  ghost predicate GroupsCoupled(groups: map<GroupKey, Group>, full: map<GroupKey, Group>, clock: Time) {
    && (forall k | k in full :: Ordered(full[k], clock))
    && (forall k | k in groups :: k in full && groups[k] == full[k])
    && (forall k | k in full && k !in groups :: clock - full[k].lastTouched > CACHE_TTL)
  }

  ghost predicate SubscriptionsCoupled(subs: map<CharId, Time>, full: map<CharId, Time>, clock: Time) {
    && (forall id | id in subs :: id in full && subs[id] == full[id])
    && (forall id | id in full && id !in subs :: clock - full[id] > SUBSCRIPTION_TTL)
  }

  /** `s` may have forgotten what `full` still remembers, but only what is out of date. */
  ghost predicate Coupled(s: State, full: State, clock: Time) {
    && s.sequence == full.sequence && s.nextPoll == full.nextPoll
    && SubscriptionsCoupled(s.subscriptions, full.subscriptions, clock)
    && GroupsCoupled(s.groups, full.groups, clock)
  }

  lemma {:induction false} BatchesSame(subs: map<CharId, Time>, full: map<CharId, Time>, chars: seq<Char>, now: Time)
    requires SubscriptionsCoupled(subs, full, now)
    ensures Batches(subs, chars, now) == Batches(full, chars, now)
  {
    if chars != [] {
      BatchesSame(subs, full, chars[..|chars| - 1], now);
    }
  }

  lemma {:induction false} BroadcastCoupled(groups: map<GroupKey, Group>, full: map<GroupKey, Group>, sequence: nat,
      b: Batch, now: Time)
    requires GroupsCoupled(groups, full, now)
    ensures var (g, n, sent) := Broadcast(groups, sequence, b, now);
            var (g', n', sent') := Broadcast(full, sequence, b, now);
            n == n' && sent == sent' && GroupsCoupled(g, g', now)
  {
    hide SendAll;
  }

  lemma {:induction false} BroadcastAllCoupled(groups: map<GroupKey, Group>, full: map<GroupKey, Group>, sequence: nat,
      batches: seq<Batch>, now: Time)
    requires GroupsCoupled(groups, full, now)
    ensures var (g, n, sent) := BroadcastAll(groups, sequence, batches, now);
            var (g', n', sent') := BroadcastAll(full, sequence, batches, now);
            n == n' && sent == sent' && GroupsCoupled(g, g', now)
  {
    hide Broadcast, GroupsCoupled;
    if batches != [] {
      BroadcastAllCoupled(groups, full, sequence, batches[..|batches| - 1], now);
      var (g, n, _) := BroadcastAll(groups, sequence, batches[..|batches| - 1], now);
      var (g', _, _) := BroadcastAll(full, sequence, batches[..|batches| - 1], now);
      BroadcastCoupled(g, g', n, batches[|batches| - 1], now);
    }
  }

  lemma {:induction false} LaterCoupled(s: State, full: State, clock: Time, now: Time)
    requires Coupled(s, full, clock) && clock <= now
    ensures Coupled(s, full, now)
  {
  }

  lemma {:induction false} CleanupCoupled(s: State, full: State, now: Time)
    requires Coupled(s, full, now)
    ensures Coupled(Cleanup(s, now), full, now)
  {
  }

  lemma {:induction false} StepCoupled(s: State, full: State, clock: Time, e: Event)
    requires Coupled(s, full, clock) && clock <= e.now
    ensures Step(s, e, true).1 == Step(full, e, false).1 && Coupled(Step(s, e, true).0, Step(full, e, false).0, e.now)
  {
    hide Batches, BroadcastAll, Cleanup, GroupsCoupled;
    LaterCoupled(s, full, clock, e.now);
    match e
    case Tick(now, zone, chars, order) =>
      BatchesSame(s.subscriptions, full.subscriptions, chars, now);
      var batches := order(Batches(s.subscriptions, chars, now));
      BroadcastAllCoupled(s.groups, full.groups, s.sequence, batches, now);
      if !(zone in s.nextPoll && now < s.nextPoll[zone]) {
        var (g, n, _) := BroadcastAll(s.groups, s.sequence, batches, now);
        var (g', _, _) := BroadcastAll(full.groups, s.sequence, batches, now);
        var polls := s.nextPoll[zone := now + POLL_INTERVAL];
        CleanupCoupled(s.(nextPoll := polls, groups := g, sequence := n),
          full.(nextPoll := polls, groups := g', sequence := n), now);
      }
    case _ =>
  }

  lemma {:induction false} RunCoupled(events: seq<Event>, start: Time)
    requires Steady(events) && (events != [] ==> start <= events[0].now)
    ensures Run(START, events, true).1 == Run(START, events, false).1
    ensures Coupled(Run(START, events, true).0, Run(START, events, false).0, Clock(events, start))
  {
    hide Step, Coupled;
    if events != [] {
      var before := events[..|events| - 1];
      RunCoupled(before, start);
      StepCoupled(Run(START, before, true).0, Run(START, before, false).0, Clock(before, start), events[|events| - 1]);
    } else {
      StartCoupled(start);
    }
  }

  lemma {:induction false} StartCoupled(start: Time)
    ensures Coupled(START, START, start)
  {
  }

  /** Forgetting expired subscriptions and idle groups changes nothing that is sent: not a record, not a sequence
      number. */
  lemma {:induction false} EvictionUnobservable(events: seq<Event>)
    requires Steady(events)
    ensures Run(START, events, true).1 == Run(START, events, false).1
  {
    RunCoupled(events, if events == [] then 0 else events[0].now);
  }

  // ----- what a tick does for its viewers

  /** The group has been told its present snapshot, within the last 15 seconds. */
  predicate UpToDate(groups: map<GroupKey, Group>, b: Batch, now: Time) {
    && b.key in groups && groups[b.key].initialized && groups[b.key].hash == b.representative.hash
    && now - groups[b.key].lastBroadcast < 15_000_000_000
  }

  lemma {:induction false} DueExactly(groups: map<GroupKey, Group>, b: Batch, now: Time)
    ensures Due(GroupOf(groups, b.key), b.representative.hash, now) <==> !UpToDate(groups, b, now)
  {
  }

  /** It has, and was seen just now. */
  ghost predicate Told(groups: map<GroupKey, Group>, b: Batch, now: Time) {
    UpToDate(groups, b, now) && groups[b.key].lastTouched == now
  }

  ghost predicate DistinctKeys(batches: seq<Batch>) {
    forall i, j | 0 <= i < j < |batches| :: batches[i].key != batches[j].key
  }

  lemma {:induction false} AllTold(groups: map<GroupKey, Group>, sequence: nat, batches: seq<Batch>, now: Time)
    requires DistinctKeys(batches)
    ensures forall b | b in batches :: Told(BroadcastAll(groups, sequence, batches, now).0, b, now)
  {
    hide SendAll;
    if batches != [] {
      var before, last := batches[..|batches| - 1], batches[|batches| - 1];
      AllTold(groups, sequence, before, now);
      forall b | b in batches
        ensures Told(BroadcastAll(groups, sequence, batches, now).0, b, now)
      {
        if b in before {
          assert b.key != last.key;
        }
      }
    }
  }

  lemma {:induction false} SendAllReaches(viewers: seq<Char>, records: seq<Record>, sequence: nat)
    ensures forall v | v in viewers :: SendTo(v, records, sequence) in SendAll(viewers, records, sequence)
  {
    if viewers != [] {
      SendAllReaches(viewers[..|viewers| - 1], records, sequence);
      assert viewers == viewers[..|viewers| - 1] + [viewers[|viewers| - 1]];
    }
  }

  /** The viewer is sent this snapshot, under whatever number. */
  ghost predicate Gets(sent: seq<Sent>, v: Char, records: seq<Record>) {
    exists n :: SendTo(v, records, n) in sent
  }

  lemma {:induction false} OtherGroups(groups: map<GroupKey, Group>, sequence: nat, batches: seq<Batch>, now: Time,
      key: GroupKey)
    requires forall b | b in batches :: b.key != key
    ensures GroupOf(BroadcastAll(groups, sequence, batches, now).0, key) == GroupOf(groups, key)
  {
    hide SendAll;
    if batches != [] {
      var before := batches[..|batches| - 1];
      assert forall b | b in before :: b in batches;
      OtherGroups(groups, sequence, before, now, key);
    }
  }

  /** A group that is due has all its viewers served with the snapshot of its representative. */
  lemma {:induction false} AllServed(groups: map<GroupKey, Group>, sequence: nat, batches: seq<Batch>, now: Time)
    requires DistinctKeys(batches)
    ensures forall b, v | b in batches && !UpToDate(groups, b, now) && v in b.viewers ::
      Gets(BroadcastAll(groups, sequence, batches, now).2, v, b.representative.records)
  {
    hide SendAll, Due, GroupOf, UpToDate;
    if batches != [] {
      var before, last := batches[..|batches| - 1], batches[|batches| - 1];
      AllServed(groups, sequence, before, now);
      DueExactly(groups, last, now);
      var (g, n, sent) := BroadcastAll(groups, sequence, before, now);
      SendAllReaches(last.viewers, last.representative.records, NextSequence(n));
      OtherGroups(groups, sequence, before, now, last.key);
      forall b, v | b in batches && !UpToDate(groups, b, now) && v in b.viewers
        ensures Gets(BroadcastAll(groups, sequence, batches, now).2, v, b.representative.records)
      {
        if b in before {
          var m :| SendTo(v, b.representative.records, m) in sent;
        } else {
          assert SendTo(v, b.representative.records, NextSequence(n)) in BroadcastAll(groups, sequence, batches, now).2;
        }
      }
    }
  }

  /** Without a zone-out, a subscription lasts for its time to live after the handshake, whatever else happens. */
  lemma {:induction false} StaysSubscribed(events: seq<Event>, i: nat, evict: bool)
    requires Steady(events) && i < |events| && events[i].Handshake?
    requires forall j | i < j < |events| :: !(events[j].ZoneOut? && events[j].id == events[i].viewer.id)
    requires events[|events| - 1].now - events[i].now <= SUBSCRIPTION_TTL
    ensures var subs, id := Run(START, events, evict).0.subscriptions, events[i].viewer.id;
      id in subs && events[i].now <= subs[id] && Subscribed(subs, id, events[|events| - 1].now)
    decreases |events|
  {
    hide BroadcastAll, Batches;
    if i < |events| - 1 {
      StaysSubscribed(events[..|events| - 1], i, evict);
    }
  }

  /** The last handshake of a character since it last left a zone. */
  function LastHandshake(events: seq<Event>, id: CharId): Option<Time> {
    if events == [] then None
    else
      match events[|events| - 1]
      case Handshake(now, viewer) =>
        if viewer.id == id then Some(now) else LastHandshake(events[..|events| - 1], id)
      case ZoneOut(_, left) => if left == id then None else LastHandshake(events[..|events| - 1], id)
      case Tick(_, _, _, _) => LastHandshake(events[..|events| - 1], id)
  }

  lemma {:induction false} Remembered(events: seq<Event>, id: CharId)
    ensures var subs := Run(START, events, false).0.subscriptions;
      LastHandshake(events, id) == if id in subs then Some(subs[id]) else None
  {
    hide BroadcastAll, Batches;
    if events != [] {
      Remembered(events[..|events| - 1], id);
    }
  }

  /** On every run, a character is subscribed exactly for the time to live after its last handshake since it last left a
      zone, whether stale entries are evicted or not. */
  lemma {:induction false} SubscribedExactly(events: seq<Event>, id: CharId, evict: bool)
    requires Steady(events) && events != []
    ensures var now, last := events[|events| - 1].now, LastHandshake(events, id);
      Subscribed(Run(START, events, evict).0.subscriptions, id, now) <==>
      last.Some? && now - last.value <= 120_000_000_000
  {
    hide Run, Step, Steady, LastHandshake, GroupsCoupled;
    Remembered(events, id);
    Starts(events);
    RunCoupled(events, events[0].now);
  }

  lemma {:induction false} Starts(events: seq<Event>)
    ensures events != [] ==> Clock(events, events[0].now) == events[|events| - 1].now
  {
  }

  // ----- how often a zone is polled, and how much is remembered

  /** The last tick of a zone at which it was polled. */
  function LastPoll(events: seq<Event>, zone: ZoneId): Option<Time> {
    if events == [] then None
    else
      var e, before := events[|events| - 1], LastPoll(events[..|events| - 1], zone);
      if e.Tick? && e.zone == zone &&
        (before.None? || e.now - before.value >= 1_000_000_000) then Some(e.now) else before
  }

  /** A zone is polled at every tick that is at least a second after it was polled before, and at no other. */
  lemma {:induction false} PolledExactly(events: seq<Event>, zone: ZoneId, evict: bool)
    ensures var next := Run(START, events, evict).0.nextPoll;
      if zone in next then LastPoll(events, zone) == Some(next[zone] - 1_000_000_000)
      else LastPoll(events, zone) == None
  {
    hide BroadcastAll, Batches;
    if events != [] {
      PolledExactly(events[..|events| - 1], zone, evict);
    }
  }

  /** A cleanup keeps exactly what was heard of in the last two minutes, and the groups that were seen in the last five;
      the next one is a minute later. */
  lemma {:induction false} CleanedExactly(s: State, now: Time)
    ensures var s' := Cleanup(s, now);
      if now < s.nextCleanup then s' == s
      else
        && s'.nextCleanup == now + 60_000_000_000 && s'.sequence == s.sequence && s'.nextPoll == s.nextPoll
        && (forall id :: id in s'.subscriptions <==>
           id in s.subscriptions && now - s.subscriptions[id] <= 120_000_000_000)
        && (forall id | id in s'.subscriptions :: s'.subscriptions[id] == s.subscriptions[id])
        && (forall k :: k in s'.groups <==> k in s.groups && now - s.groups[k].lastTouched <= 300_000_000_000)
        && (forall k | k in s'.groups :: s'.groups[k] == s.groups[k])
  {
  }

  /** What is remembered was alive at the last cleanup, or came later. */
  ghost predicate Recent(s: State, clock: Time) {
    && s.nextCleanup <= clock + CLEANUP_INTERVAL
    && (forall id | id in s.subscriptions :: s.nextCleanup <= s.subscriptions[id] + SUBSCRIPTION_TTL + CLEANUP_INTERVAL)
    && (forall k | k in s.groups :: s.nextCleanup <= s.groups[k].lastTouched + CACHE_TTL + CLEANUP_INTERVAL)
  }

  ghost predicate GroupsRecent(groups: map<GroupKey, Group>, nextCleanup: Time) {
    forall k | k in groups :: nextCleanup <= groups[k].lastTouched + CACHE_TTL + CLEANUP_INTERVAL
  }

  lemma {:induction false} BroadcastRecent(groups: map<GroupKey, Group>, sequence: nat, batches: seq<Batch>, now: Time,
      next: Time)
    requires GroupsRecent(groups, next) && next <= now + CLEANUP_INTERVAL
    ensures GroupsRecent(BroadcastAll(groups, sequence, batches, now).0, next)
  {
    hide SendAll;
    if batches != [] {
      BroadcastRecent(groups, sequence, batches[..|batches| - 1], now, next);
    }
  }

  lemma {:induction false} StepRecent(s: State, e: Event, clock: Time)
    requires Recent(s, clock) && clock <= e.now
    ensures Recent(Step(s, e, true).0, e.now)
    ensures e.Tick? && !(e.zone in s.nextPoll && e.now < s.nextPoll[e.zone]) ==> e.now < Step(s, e, true).0.nextCleanup
  {
    hide BroadcastAll, Batches;
    match e
    case Tick(now, zone, chars, order) =>
      BroadcastRecent(s.groups, s.sequence, order(Batches(s.subscriptions, chars, now)), now, s.nextCleanup);
    case _ =>
  }

  lemma {:induction false} RunRecent(events: seq<Event>)
    requires Steady(events) && (events != [] ==> 0 <= events[0].now)
    ensures Recent(Run(START, events, true).0, Clock(events, 0))
  {
    hide Step, Recent;
    if events != [] {
      RunRecent(events[..|events| - 1]);
      StepRecent(Run(START, events[..|events| - 1], true).0, events[|events| - 1], Clock(events[..|events| - 1], 0));
    } else {
      StartRecent();
    }
  }

  lemma {:induction false} StartRecent()
    ensures Recent(START, 0)
  {
  }

  /** Whenever a zone has just been polled, no subscription older than three minutes and no group that was not seen for
      six minutes is remembered. */
  lemma {:induction false} NothingStale(events: seq<Event>, e: Event)
    requires Steady(events + [e]) && 0 <= (events + [e])[0].now && e.Tick?
    requires var next := Run(START, events, true).0.nextPoll; !(e.zone in next && e.now < next[e.zone])
    ensures var s := Run(START, events + [e], true).0;
      && (forall id | id in s.subscriptions :: e.now - s.subscriptions[id] < 180 * 1_000_000_000)
      && (forall k | k in s.groups :: e.now - s.groups[k].lastTouched < 360 * 1_000_000_000)
  {
    hide Step;
    var all := events + [e];
    assert all[..|all| - 1] == events && all[|all| - 1] == e;
    assert forall i | 0 <= i < |events| :: events[i] == all[i];
    RunRecent(events);
    StepRecent(Run(START, events, true).0, e, Clock(events, 0));
  }

  // ----- the numbers of the snapshots

  /** How many of the groups are not up to date. */
  function DueCount(groups: map<GroupKey, Group>, batches: seq<Batch>, now: Time): nat {
    if batches == [] then 0
    else
      var b := batches[|batches| - 1];
      DueCount(groups, batches[..|batches| - 1], now)
      + if UpToDate(groups, b, now) then 0 else 1
  }

  lemma {:induction false} NextNumber(sequence: nat, n: nat)
    ensures NextSequence((sequence + n) % 0x1_0000) == (sequence + (n + 1)) % 0x1_0000
  {
  }

  /** The numbers of a tick count on by one for every group that is due, modulo 2^16. */
  lemma {:induction false} NumbersCount(groups: map<GroupKey, Group>, sequence: nat, batches: seq<Batch>, now: Time)
    requires DistinctKeys(batches) && sequence < 0x1_0000
    ensures BroadcastAll(groups, sequence, batches, now).1 == (sequence + DueCount(groups, batches, now)) % 0x1_0000
  {
    hide SendAll, Due, NextSequence, GroupOf, UpToDate;
    if batches != [] {
      var before, last := batches[..|batches| - 1], batches[|batches| - 1];
      NumbersCount(groups, sequence, before, now);
      OtherGroups(groups, sequence, before, now, last.key);
      DueExactly(groups, last, now);
      NextNumber(sequence, DueCount(groups, before, now));
    }
  }

  /** A handshake is answered at once, under the next number. */
  lemma {:induction false} HandshakeAnswered(s: State, now: Time, viewer: Char, evict: bool)
    ensures var sent := Step(s, Handshake(now, viewer), evict).1;
      |sent| == 1 && sent[0].viewer == viewer.id && sent[0].records == viewer.records
      && sent[0].alliance == viewer.key.alliance && sent[0].partySlot == viewer.partySlot
      && sent[0].sequence == (s.sequence + 1) % 0x1_0000 == Step(s, Handshake(now, viewer), evict).0.sequence
  {
  }

  /** A batch holds subscribed characters of its own group, its representative among them. */
  ghost predicate Proper(b: Batch, subscriptions: map<CharId, Time>, chars: seq<Char>, now: Time) {
    && b.representative in b.viewers
    && forall c | c in b.viewers :: c in chars && Subscribed(subscriptions, c.id, now) && c.key == b.key
  }

  ghost predicate Joined(batches: seq<Batch>, c: Char) {
    exists b | b in batches :: b.key == c.key && c in b.viewers
  }

  lemma {:induction false} AddViewerKeys(batches: seq<Batch>, c: Char)
    requires DistinctKeys(batches)
    ensures DistinctKeys(AddViewer(batches, c))
    ensures forall b | b in AddViewer(batches, c) :: b.key == c.key || exists b' | b' in batches :: b'.key == b.key
  {
    if batches != [] && batches[0].key != c.key {
      AddViewerKeys(batches[1..], c);
    }
  }

  lemma {:induction false} JoinedParts(b: Batch, rest: seq<Batch>, d: Char)
    ensures Joined([b] + rest, d) <==> (b.key == d.key && d in b.viewers) || Joined(rest, d)
  {
    var r := [b] + rest;
    assert r[0] == b && r[1..] == rest;
    assert forall x :: x in r <==> x == b || x in rest;
  }

  lemma {:induction false} AddViewerJoins(batches: seq<Batch>, c: Char, d: Char)
    ensures Joined(AddViewer(batches, c), d) <==> d == c || Joined(batches, d)
  {
    hide Joined;
    if batches == [] {
      JoinedParts(Batch(c.key, c, [c]), [], d);
      NoneJoined(d);
      assert [Batch(c.key, c, [c])] + [] == AddViewer(batches, c);
    } else {
      assert batches == [batches[0]] + batches[1..];
      JoinedParts(batches[0], batches[1..], d);
      if batches[0].key == c.key {
        JoinedParts(batches[0].(viewers := batches[0].viewers + [c]), batches[1..], d);
      } else {
        JoinedParts(batches[0], AddViewer(batches[1..], c), d);
        AddViewerJoins(batches[1..], c, d);
      }
    }
  }

  lemma {:induction false} NoneJoined(d: Char)
    ensures !Joined([], d)
  {
  }

  lemma {:induction false} AddViewerProper(batches: seq<Batch>, c: Char, subscriptions: map<CharId, Time>,
      chars: seq<Char>, now: Time)
    requires (forall b | b in batches :: Proper(b, subscriptions, chars, now)) && c in chars &&
      Subscribed(subscriptions, c.id, now)
    ensures forall b | b in AddViewer(batches, c) :: Proper(b, subscriptions, chars, now)
  {
    hide Subscribed;
    if batches != [] {
      assert batches[0] in batches;
      if batches[0].key != c.key {
        AddViewerProper(batches[1..], c, subscriptions, chars, now);
      }
    }
  }

  /** The subscribed characters are partitioned by group: every one is in the batch of its group, and nobody else is. */
  lemma {:induction false} BatchesPartition(subscriptions: map<CharId, Time>, chars: seq<Char>, now: Time)
    ensures var batches := Batches(subscriptions, chars, now);
      && DistinctKeys(batches) && (forall b | b in batches :: Proper(b, subscriptions, chars, now))
      && forall c | c in chars && Subscribed(subscriptions, c.id, now) :: Joined(batches, c)
  {
    hide Subscribed, Joined, AddViewer;
    if chars != [] {
      var before, c := chars[..|chars| - 1], chars[|chars| - 1];
      BatchesPartition(subscriptions, before, now);
      var batches := Batches(subscriptions, before, now);
      assert chars == before + [c];
      if Subscribed(subscriptions, c.id, now) {
        AddViewerKeys(batches, c);
        forall d | d == c || Joined(batches, d)
          ensures Joined(AddViewer(batches, c), d)
        {
          AddViewerJoins(batches, c, d);
        }
        AddViewerProper(batches, c, subscriptions, chars, now);
      }
    }
  }

  // ----- what a tick does for every character of the zone

  lemma {:induction false} AtMostOnce(batches: seq<Batch>, b: Batch)
    requires DistinctKeys(batches)
    ensures multiset(batches)[b] <= 1
  {
    if batches != [] {
      var before, last := batches[..|batches| - 1], batches[|batches| - 1];
      assert batches == before + [last];
      AtMostOnce(before, b);
    }
  }

  lemma {:induction false} AtLeastTwice(batches: seq<Batch>, i: nat, j: nat)
    requires i < j < |batches| && batches[i] == batches[j]
    ensures multiset(batches)[batches[i]] >= 2
  {
    assert batches == batches[..j] + batches[j..];
    assert batches[..j][i] == batches[i] && batches[j..][0] == batches[j];
  }

  /** Whatever the order of the hash table, every batch is walked once. */
  lemma {:induction false} AnyOrder(walked: seq<Batch>, batches: seq<Batch>)
    requires multiset(walked) == multiset(batches) && DistinctKeys(batches)
    ensures DistinctKeys(walked) && forall b :: b in walked <==> b in batches
  {
    assert forall b :: b in walked <==> b in multiset(walked);
    assert forall b :: b in batches <==> b in multiset(batches);
    forall i, j | 0 <= i < j < |walked|
      ensures walked[i].key != walked[j].key
    {
      AtMostOnce(batches, walked[i]);
      if walked[i] == walked[j] {
        AtLeastTwice(walked, i, j);
      }
      assert walked[i] in batches && walked[j] in batches;
    }
  }

  /** The character has a group in the zone that has been told its present snapshot, within the last heartbeat
      interval. */
  ghost predicate GroupTold(groups: map<GroupKey, Group>, batches: seq<Batch>, c: Char, now: Time) {
    exists b | b in batches :: b.key == c.key && c in b.viewers && Told(groups, b, now)
  }

  /** Unless the character's group is up to date, the character gets the group's snapshot. */
  ghost predicate Served(groups: map<GroupKey, Group>, sent: seq<Sent>, batches: seq<Batch>, c: Char, now: Time) {
    exists b | b in batches :: b.key == c.key && c in b.viewers &&
      (UpToDate(groups, b, now) || Gets(sent, c, b.representative.records))
  }

  /** What is sent is the snapshot of a group that is not up to date, to a viewer of it. */
  ghost predicate Meant(groups: map<GroupKey, Group>, batches: seq<Batch>, m: Sent, now: Time) {
    exists b, v | b in batches && v in b.viewers :: !UpToDate(groups, b, now) &&
      m == SendTo(v, b.representative.records, m.sequence)
  }

  /** After a tick of a zone, the group of every subscribed character in it has been told its present snapshot within a
      heartbeat interval, whether stale entries are evicted or not. */
  lemma {:induction false} TickTells(s: State, now: Time, zone: ZoneId, chars: seq<Char>,
      order: seq<Batch> -> seq<Batch>, evict: bool)
    requires !(zone in s.nextPoll && now < s.nextPoll[zone])
    requires var batches := Batches(s.subscriptions, chars, now); multiset(order(batches)) == multiset(batches)
    ensures forall c | c in chars && Subscribed(s.subscriptions, c.id, now) ::
      GroupTold(TickWith(s, now, zone, chars, order, evict).0.groups, Batches(s.subscriptions, chars, now), c, now)
  {
    hide Batches, BroadcastAll, DistinctKeys, Subscribed, Proper;
    var batches := Batches(s.subscriptions, chars, now);
    BatchesPartition(s.subscriptions, chars, now);
    AnyOrder(order(batches), batches);
    AllTold(s.groups, s.sequence, order(batches), now);
  }

  lemma {:induction false} SendAllOnly(viewers: seq<Char>, records: seq<Record>, sequence: nat)
    ensures forall m | m in SendAll(viewers, records, sequence) :: exists v | v in viewers ::
      m == SendTo(v, records, sequence)
  {
    if viewers != [] {
      SendAllOnly(viewers[..|viewers| - 1], records, sequence);
      assert viewers == viewers[..|viewers| - 1] + [viewers[|viewers| - 1]];
    }
  }

  lemma {:induction false} AllMeant(groups: map<GroupKey, Group>, sequence: nat, batches: seq<Batch>, now: Time)
    requires DistinctKeys(batches)
    ensures forall m | m in BroadcastAll(groups, sequence, batches, now).2 :: Meant(groups, batches, m, now)
  {
    hide SendAll, Due, GroupOf, UpToDate;
    if batches != [] {
      var before, last := batches[..|batches| - 1], batches[|batches| - 1];
      AllMeant(groups, sequence, before, now);
      DueExactly(groups, last, now);
      var (g, n, sent) := BroadcastAll(groups, sequence, before, now);
      SendAllOnly(last.viewers, last.representative.records, NextSequence(n));
      OtherGroups(groups, sequence, before, now, last.key);
      forall m | m in BroadcastAll(groups, sequence, batches, now).2
        ensures Meant(groups, batches, m, now)
      {
        if m in sent {
          assert Meant(groups, before, m, now);
        } else {
          assert last in batches;
        }
      }
    }
  }

  ghost predicate ToSubscriber(subscriptions: map<CharId, Time>, chars: seq<Char>, m: Sent, now: Time) {
    exists c | c in chars :: Subscribed(subscriptions, c.id, now) && m.viewer == c.id
  }

  lemma {:induction false} MeantForSubscriber(s: State, chars: seq<Char>, m: Sent, now: Time)
    requires Meant(s.groups, Batches(s.subscriptions, chars, now), m, now)
    ensures ToSubscriber(s.subscriptions, chars, m, now)
  {
    hide Batches, Subscribed, UpToDate;
    BatchesPartition(s.subscriptions, chars, now);
  }

  /** On a tick, every subscribed character of the zone whose group's snapshot changed, or was not told for a while,
      gets the snapshot, and nothing else is sent. */
  lemma {:induction false} TickServes(s: State, now: Time, zone: ZoneId, chars: seq<Char>,
      order: seq<Batch> -> seq<Batch>, evict: bool)
    requires !(zone in s.nextPoll && now < s.nextPoll[zone])
    requires var batches := Batches(s.subscriptions, chars, now); multiset(order(batches)) == multiset(batches)
    ensures forall c | c in chars && Subscribed(s.subscriptions, c.id, now) ::
      Served(s.groups, TickWith(s, now, zone, chars, order, evict).1, Batches(s.subscriptions, chars, now), c, now)
    ensures forall m | m in TickWith(s, now, zone, chars, order, evict).1 ::
      Meant(s.groups, Batches(s.subscriptions, chars, now), m, now) && ToSubscriber(s.subscriptions, chars, m, now)
  {
    hide Batches, BroadcastAll, DistinctKeys, Subscribed, Proper, UpToDate, Gets, Cleanup, ToSubscriber;
    var batches := Batches(s.subscriptions, chars, now);
    BatchesPartition(s.subscriptions, chars, now);
    AnyOrder(order(batches), batches);
    AllServed(s.groups, s.sequence, order(batches), now);
    AllMeant(s.groups, s.sequence, order(batches), now);
    forall m | m in TickWith(s, now, zone, chars, order, evict).1
      ensures Meant(s.groups, batches, m, now) && ToSubscriber(s.subscriptions, chars, m, now)
    {
      assert Meant(s.groups, batches, m, now);
      MeantForSubscriber(s, chars, m, now);
    }
  }

  // ----- packets

  const RECORDS_PER_PACKET := 24

  datatype Packet = Packet(sequence: nat, chunk: nat, chunks: nat, count: nat, records: seq<Record>)

  function Flatten(packets: seq<Packet>): seq<Record> {
    if packets == [] then [] else Flatten(packets[..|packets| - 1]) + packets[|packets| - 1].records
  }

  /** How many records the first `chunks` packets hold. */
  function Taken(n: nat, chunks: nat): (k: nat)
    ensures k <= n
  {
    if chunks * RECORDS_PER_PACKET < n then chunks * RECORDS_PER_PACKET else n
  }

  /** Packet i of `chunks`: at most 24 records, as many as that unless it is the last, and none is empty unless it is
      alone. */
  ghost predicate ProperChunk(p: Packet, sequence: nat, i: nat, chunks: nat) {
    && p == Packet(sequence, i % 0x1_0000, chunks % 0x1_0000, |p.records|, p.records)
    && |p.records| <= 24 && (i + 1 < chunks ==> |p.records| == 24) &&
       (chunks > 1 ==> p.records != [])
  }

  /** Cuts the records into packets of at most 24; at least one packet is sent, and together they hold every record
      once, in order. */
  method Chunk(records: seq<Record>, sequence: nat) returns (packets: seq<Packet>)
    ensures Flatten(packets) == records && |packets| >= 1
    ensures forall i | 0 <= i < |packets| :: ProperChunk(packets[i], sequence, i, |packets|)
  {
    hide Flatten;
    var needed := (|records| + RECORDS_PER_PACKET - 1) / RECORDS_PER_PACKET;
    var chunkCount := if needed < 1 then 1 else needed;
    packets := [];
    FlattenNone();
    for chunkIndex := 0 to chunkCount
      invariant |packets| == chunkIndex && Flatten(packets) == records[..Taken(|records|, chunkIndex)]
      invariant forall i | 0 <= i < |packets| :: ProperChunk(packets[i], sequence, i, chunkCount)
    {
      ChunkSizes(|records|, chunkCount, chunkIndex);
      var first := chunkIndex * RECORDS_PER_PACKET;
      var count := if RECORDS_PER_PACKET < |records| - first then RECORDS_PER_PACKET else |records| - first;
      var packet := Packet(sequence, chunkIndex % 0x1_0000, chunkCount % 0x1_0000, count,
        records[first..first + count]);
      FlattenAppend(packets, packet);
      packets := packets + [packet];
      assert records[..first] + records[first..first + count] == records[..first + count];
    }
    ChunkSizes(|records|, chunkCount, chunkCount);
    assert records[..|records|] == records;
  }

  lemma {:induction false} ChunkSizes(n: nat, chunks: nat, i: nat)
    requires var needed := (n + RECORDS_PER_PACKET - 1) / RECORDS_PER_PACKET;
      chunks == if needed < 1 then 1 else needed
    requires i <= chunks
    ensures i < chunks ==> i * RECORDS_PER_PACKET == Taken(n, i) <= n
    ensures i + 1 < chunks ==> RECORDS_PER_PACKET < n - i * RECORDS_PER_PACKET
    ensures i < chunks && 1 < chunks ==> i * RECORDS_PER_PACKET < n
    ensures i == chunks ==> Taken(n, i) == n
  {
  }

  lemma {:induction false} FlattenNone()
    ensures Flatten([]) == []
  {
  }

  lemma {:induction false} FlattenAppend(packets: seq<Packet>, p: Packet)
    ensures Flatten(packets + [p]) == Flatten(packets) + p.records
  {
    assert (packets + [p])[..|packets|] == packets;
  }

  // ----- the module

  datatype Request = Request(kind: nat, size: nat, pad: nat, magic: nat, version: nat)

  /** The request of a client that wants to be kept up to date. */
  predicate Recognised(r: Request) {
    r.kind == 0x076 && r.size >= 12 && r.pad == 0 && r.magic == 0x5254_4353
  }

  class StatusSync {
    var subscriptions: map<CharId, Time>
    var nextPoll: map<ZoneId, Time>
    var groups: map<GroupKey, Group>
    var nextCleanup: Time
    var sequence: nat
    var sent: seq<Sent>

    constructor ()
      ensures Now() == START && sent == []
    {
      subscriptions, nextPoll, groups, nextCleanup, sequence, sent := map[], map[], map[], 0, 0, [];
    }

    ghost function Now(): State
      reads this
    {
      State(subscriptions, nextPoll, groups, nextCleanup, sequence)
    }

    method SendSnapshots(viewers: seq<Char>, records: seq<Record>, number: nat)
      modifies this`sent
      ensures sent == old(sent) + SendAll(viewers, records, number)
    {
      for i := 0 to |viewers|
        invariant sent == old(sent) + SendAll(viewers[..i], records, number)
      {
        assert viewers[..i + 1][..i] == viewers[..i];
        sent := sent + [SendTo(viewers[i], records, number)];
      }
      assert viewers[..|viewers|] == viewers;
    }

    /** Says whether the packet was meant for this module. */
    method OnIncomingPacket(r: Request, now: Time, viewer: Char) returns (taken: bool)
      modifies this
      ensures taken <==> Recognised(r)
      ensures taken && r.version == 1 ==>
        Now() == Step(old(Now()), Handshake(now, viewer), true).0 &&
          sent == old(sent) + Step(old(Now()), Handshake(now, viewer), true).1
      ensures !(taken && r.version == 1) ==> Now() == old(Now()) && sent == old(sent)
    {
      if r.kind != 0x076 || r.size < 12 {
        return false;
      }
      if r.pad != 0 || r.magic != 0x5254_4353 {
        return false;
      }
      if r.version == 1 {
        subscriptions := subscriptions[viewer.id := now];
        sequence := NextSequence(sequence);
        sent := sent + [SendTo(viewer, viewer.records, sequence)];
      }
      taken := true;
    }

    method OnCharZoneOut(now: Time, id: CharId)
      modifies this`subscriptions
      ensures Now() == Step(old(Now()), ZoneOut(now, id), true).0
    {
      subscriptions := subscriptions - {id};
    }

    method EvictStale(now: Time)
      modifies this`subscriptions, this`groups, this`nextCleanup
      ensures Now() == Cleanup(old(Now()), now)
    {
      if now < nextCleanup {
        return;
      }
      nextCleanup := now + CLEANUP_INTERVAL;
      subscriptions := map id | id in subscriptions && now - subscriptions[id] <= SUBSCRIPTION_TTL :: subscriptions[id];
      groups := map k | k in groups && now - groups[k].lastTouched <= CACHE_TTL :: groups[k];
    }

    method CollectBatches(chars: seq<Char>, now: Time) returns (batches: seq<Batch>)
      ensures batches == Batches(subscriptions, chars, now)
    {
      batches := [];
      for i := 0 to |chars|
        invariant batches == Batches(subscriptions, chars[..i], now)
      {
        assert chars[..i + 1][..i] == chars[..i];
        if Subscribed(subscriptions, chars[i].id, now) {
          batches := AddViewer(batches, chars[i]);
        }
      }
      assert chars[..|chars|] == chars;
    }

    method BroadcastBatch(b: Batch, now: Time)
      modifies this`groups, this`sequence, this`sent
      ensures groups == Broadcast(old(groups), old(sequence), b, now).0 &&
        sequence == Broadcast(old(groups), old(sequence), b, now).1
      ensures sent == old(sent) + Broadcast(old(groups), old(sequence), b, now).2
    {
      hide SendAll;
      var g := GroupOf(groups, b.key);
      var hash := b.representative.hash;
      var changed := !g.initialized || g.hash != hash;
      var heartbeat := !g.initialized || now - g.lastBroadcast >= HEARTBEAT_INTERVAL;
      g := g.(lastTouched := now);
      if !changed && !heartbeat {
        groups := groups[b.key := g];
        return;
      }
      groups := groups[b.key := g.(hash := hash, initialized := true, lastBroadcast := now)];
      sequence := NextSequence(sequence);
      SendSnapshots(b.viewers, b.representative.records, sequence);
    }

    method OnZoneTick(now: Time, zone: ZoneId, chars: seq<Char>, order: seq<Batch> -> seq<Batch>)
      modifies this
      ensures Now() == Step(old(Now()), Tick(now, zone, chars, order), true).0
      ensures sent == old(sent) + Step(old(Now()), Tick(now, zone, chars, order), true).1
    {
      hide Batches, Broadcast, Cleanup;
      if zone in nextPoll && now < nextPoll[zone] {
        return;
      }
      nextPoll := nextPoll[zone := now + POLL_INTERVAL];
      var collected := CollectBatches(chars, now);
      var batches := order(collected);
      for i := 0 to |batches|
        invariant groups == BroadcastAll(old(groups), old(sequence), batches[..i], now).0
        invariant sequence == BroadcastAll(old(groups), old(sequence), batches[..i], now).1
        invariant sent == old(sent) + BroadcastAll(old(groups), old(sequence), batches[..i], now).2
        modifies this`groups, this`sequence, this`sent
      {
        assert batches[..i + 1][..i] == batches[..i];
        BroadcastBatch(batches[i], now);
      }
      assert batches[..|batches|] == batches;
      EvictStale(now);
    }
  }
}
