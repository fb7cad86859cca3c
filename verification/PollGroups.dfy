/** The slot allocator: sockets share poll groups of at most 32, kept in a queue with the full groups first. */
module PollGroups {
  import opened Sequences

  type GroupId = nat

  const MAX_GROUP_SIZE := 32

  /** The queue of groups, and how many slots of each are taken. */
  datatype Groups = Groups(order: seq<GroupId>, size: map<GroupId, nat>)

  // ----- taking and giving back slots

  function Count(g: Groups, x: GroupId): nat {
    if x in g.size then g.size[x] else 0
  }

  /** A new group is wanted when there is none yet or the last one is full. */
  predicate NeedsNew(g: Groups) {
    g.order == [] || Count(g, g.order[|g.order| - 1]) >= MAX_GROUP_SIZE
  }

  function Occupy(g: Groups, x: GroupId): Groups {
    var n := Count(g, x) + 1;
    Groups(if n == MAX_GROUP_SIZE then [x] + Without(g.order, x) else g.order, g.size[x := n])
  }

  /** Takes a slot in the last group, or in a new one, whose creation may fail. */
  function Acquire(g: Groups, created: Option<GroupId>): (Groups, Option<GroupId>) {
    if !NeedsNew(g) then
      var x := g.order[|g.order| - 1];
      (Occupy(g, x), Some(x))
    else if created.None? then (g, None)
    else (Occupy(Groups(g.order + [created.value], g.size[created.value := 0]), created.value), created)
  }

  /** The assertion of the release: the slot existed, and the group is not fuller than full. */
  predicate Releasable(g: Groups, x: GroupId) {
    x in g.size && 0 < g.size[x] <= MAX_GROUP_SIZE
  }

  function Release(g: Groups, x: GroupId): Groups
    requires Releasable(g, x)
  {
    Groups(Without(g.order, x) + [x], g.size[x := g.size[x] - 1])
  }

  // ----- what always holds

  ghost predicate Ok(g: Groups) {
    && NoDuplicates(g.order)
    && (forall x :: x in g.order <==> x in g.size)
    && (forall x | x in g.size :: g.size[x] <= MAX_GROUP_SIZE)
    && FullFirst(g.order, g.size)
  }

  predicate Full(x: GroupId, size: map<GroupId, nat>) {
    x in size && size[x] == MAX_GROUP_SIZE
  }

  /** The full groups form a prefix of the queue. */
  ghost predicate FullFirst(q: seq<GroupId>, size: map<GroupId, nat>) {
    q == [] || (if Full(q[0], size) then FullFirst(q[1..], size) else forall x | x in q[1..] :: !Full(x, size))
  }

  lemma {:induction false} FullFirstSame(q: seq<GroupId>, size: map<GroupId, nat>, size': map<GroupId, nat>)
    requires FullFirst(q, size) && forall x | x in q :: Full(x, size) == Full(x, size')
    ensures FullFirst(q, size')
  {
    if q != [] {
      assert q[0] in q && forall x | x in q[1..] :: x in q;
      if Full(q[0], size) {
        FullFirstSame(q[1..], size, size');
      }
    }
  }

  lemma {:induction false} FullFirstWithout(q: seq<GroupId>, x: GroupId, size: map<GroupId, nat>)
    requires FullFirst(q, size)
    ensures FullFirst(Without(q, x), size)
  {
    if q != [] {
      WithoutMembers(q[1..], x);
      if Full(q[0], size) {
        FullFirstWithout(q[1..], x, size);
        assert q[0] != x ==> ([q[0]] + Without(q[1..], x))[1..] == Without(q[1..], x);
      } else if q[0] == x {
        NoneFull(Without(q[1..], x), size);
      } else {
        assert ([q[0]] + Without(q[1..], x))[1..] == Without(q[1..], x);
      }
    }
  }

  lemma {:induction false} NoneFull(q: seq<GroupId>, size: map<GroupId, nat>)
    requires forall x | x in q :: !Full(x, size)
    ensures FullFirst(q, size)
  {
    if q != [] {
      assert forall x | x in q[1..] :: x in q;
    }
  }

  lemma {:induction false} FullFirstAppend(q: seq<GroupId>, x: GroupId, size: map<GroupId, nat>)
    requires FullFirst(q, size) && !Full(x, size)
    ensures FullFirst(q + [x], size)
  {
    if q != [] {
      assert (q + [x])[1..] == q[1..] + [x];
      if Full(q[0], size) {
        FullFirstAppend(q[1..], x, size);
      }
    }
  }

  lemma {:induction false} FullFirstPrepend(q: seq<GroupId>, x: GroupId, size: map<GroupId, nat>)
    requires FullFirst(q, size) && Full(x, size)
    ensures FullFirst([x] + q, size)
  {
    assert ([x] + q)[1..] == q;
  }

  lemma {:induction false} LastFull(q: seq<GroupId>, size: map<GroupId, nat>)
    requires FullFirst(q, size) && q != [] && Full(q[|q| - 1], size)
    ensures forall x | x in q :: Full(x, size)
  {
    if |q| > 1 {
      assert q[1..][|q| - 2] == q[|q| - 1];
      assert q[|q| - 1] in q[1..];
      LastFull(q[1..], size);
      assert q == [q[0]] + q[1..];
    }
  }

  /** A group is created only when every existing group is full. */
  lemma {:induction false} NewOnlyWhenFull(g: Groups)
    requires Ok(g)
    ensures NeedsNew(g) <==> forall x | x in g.size :: g.size[x] == MAX_GROUP_SIZE
  {
    if g.order != [] {
      var last := g.order[|g.order| - 1];
      assert last in g.order;
      if g.size[last] == MAX_GROUP_SIZE {
        LastFull(g.order, g.size);
      }
    }
  }

  lemma {:induction false} OccupyOk(g: Groups, x: GroupId)
    requires Ok(g) && g.order != [] && x == g.order[|g.order| - 1] && g.size[x] < MAX_GROUP_SIZE
    ensures Ok(Occupy(g, x)) && Occupy(g, x).size == g.size[x := g.size[x] + 1]
  {
    hide FullFirst, NoDuplicates, Without;
    var size := g.size[x := g.size[x] + 1];
    var rest := Without(g.order, x);
    WithoutMembers(g.order, x);
    if g.size[x] + 1 == MAX_GROUP_SIZE {
      WithoutDuplicates(g.order, x);
      AppendDuplicates(rest, x);
      FullFirstWithout(g.order, x, g.size);
      FullFirstSame(rest, g.size, size);
      FullFirstPrepend(rest, x, size);
    } else {
      FullFirstSame(g.order, g.size, size);
    }
  }

  lemma {:induction false} AddEmptyOk(g: Groups, x: GroupId)
    requires Ok(g) && x !in g.size
    ensures Ok(Groups(g.order + [x], g.size[x := 0]))
  {
    AppendDuplicates(g.order, x);
    FullFirstSame(g.order, g.size, g.size[x := 0]);
    FullFirstAppend(g.order, x, g.size[x := 0]);
  }

  lemma {:induction false} AcquireOk(g: Groups, created: Option<GroupId>)
    requires Ok(g) && (created.Some? ==> created.value !in g.size)
    ensures var (g', x) := Acquire(g, created);
      && Ok(g')
      && (x.None? ==> g' == g && NeedsNew(g) && created.None?)
      && (x.Some? ==> (if NeedsNew(g) then x == created else x.value in g.size && g.size[x.value] < MAX_GROUP_SIZE)
                      && g'.size == g.size[x.value := if NeedsNew(g) then 1 else g.size[x.value] + 1])
  {
    if !NeedsNew(g) {
      OccupyOk(g, g.order[|g.order| - 1]);
    } else if created.Some? {
      AddEmptyOk(g, created.value);
      OccupyOk(Groups(g.order + [created.value], g.size[created.value := 0]), created.value);
    }
  }

  lemma {:induction false} ReleaseOk(g: Groups, x: GroupId)
    requires Ok(g) && Releasable(g, x)
    ensures Ok(Release(g, x)) && Release(g, x).size == g.size[x := g.size[x] - 1]
  {
    hide FullFirst, NoDuplicates, Without;
    var size := g.size[x := g.size[x] - 1];
    var rest := Without(g.order, x);
    WithoutMembers(g.order, x);
    WithoutDuplicates(g.order, x);
    AppendDuplicates(rest, x);
    FullFirstWithout(g.order, x, g.size);
    FullFirstSame(rest, g.size, size);
    FullFirstAppend(rest, x, size);
  }

  // ----- no more groups than the busiest moment needed

  function Total(q: seq<GroupId>, size: map<GroupId, nat>): nat {
    if q == [] then 0 else (if q[0] in size then size[q[0]] else 0) + Total(q[1..], size)
  }

  /** The number of slots in use. */
  function Slots(g: Groups): nat {
    Total(g.order, g.size)
  }

  lemma {:induction false} TotalSame(q: seq<GroupId>, size: map<GroupId, nat>, size': map<GroupId, nat>)
    requires forall x | x in q :: x in size && x in size' && size[x] == size'[x]
    ensures Total(q, size) == Total(q, size')
  {
    if q != [] {
      assert q[0] in q && forall x | x in q[1..] :: x in q;
      TotalSame(q[1..], size, size');
    }
  }

  lemma {:induction false} TotalAppend(q: seq<GroupId>, x: GroupId, size: map<GroupId, nat>)
    requires x in size
    ensures Total(q + [x], size) == Total(q, size) + size[x]
  {
    if q != [] {
      assert (q + [x])[1..] == q[1..] + [x];
      TotalAppend(q[1..], x, size);
    } else {
      assert q + [x] == [x];
    }
  }

  lemma {:induction false} TotalWithout(q: seq<GroupId>, x: GroupId, size: map<GroupId, nat>)
    requires x in q && x in size && NoDuplicates(q)
    ensures Total(q, size) == Total(Without(q, x), size) + size[x]
  {
    if q[0] == x {
      WithoutMembers(q[1..], x);
    } else {
      assert x in q[1..];
      TotalWithout(q[1..], x, size);
      assert ([q[0]] + Without(q[1..], x))[1..] == Without(q[1..], x);
    }
  }

  lemma {:induction false} TotalFull(q: seq<GroupId>, size: map<GroupId, nat>)
    requires forall x | x in q :: Full(x, size)
    ensures Total(q, size) == MAX_GROUP_SIZE * |q|
  {
    if q != [] {
      assert q[0] in q && forall x | x in q[1..] :: x in q;
      TotalFull(q[1..], size);
    }
  }

  /** Changing the count of one group changes the total by as much, wherever that group is put. */
  lemma {:induction false} TotalChange(q: seq<GroupId>, x: GroupId, size: map<GroupId, nat>, n: nat)
    requires NoDuplicates(q) && x in q && forall y | y in q :: y in size
    ensures Total(q, size[x := n]) == Total(q, size) - size[x] + n
    ensures Total([x] + Without(q, x), size[x := n]) == Total(q, size) - size[x] + n
    ensures Total(Without(q, x) + [x], size[x := n]) == Total(q, size) - size[x] + n
  {
    var rest, size' := Without(q, x), size[x := n];
    WithoutMembers(q, x);
    TotalWithout(q, x, size);
    TotalWithout(q, x, size');
    TotalSame(rest, size, size');
    TotalAppend(rest, x, size');
    assert ([x] + rest)[1..] == rest;
  }

  lemma {:induction false} OccupySlots(g: Groups, x: GroupId)
    requires Ok(g) && x in g.order
    ensures Slots(Occupy(g, x)) == Slots(g) + 1
  {
    TotalChange(g.order, x, g.size, g.size[x] + 1);
  }

  datatype SlotOp = Take(created: Option<GroupId>) | Give(group: GroupId)

  /** What the callers keep to: new groups are new, and only slots that are taken are given back. */
  ghost predicate Legal(g: Groups, op: SlotOp) {
    match op
    case Take(created) => created.Some? ==> created.value !in g.size
    case Give(x) => Releasable(g, x)
  }

  ghost function Apply(g: Groups, op: SlotOp): Groups
    requires Ok(g) && Legal(g, op)
  {
    match op
    case Take(created) => Acquire(g, created).0
    case Give(x) => Release(g, x)
  }

  lemma {:induction false} ApplySlots(g: Groups, op: SlotOp)
    requires Ok(g) && Legal(g, op)
    ensures var g' := Apply(g, op);
      && Ok(g') && Slots(g') <= Slots(g) + 1
      && (|g'.order| == |g.order| ||
          (|g'.order| == |g.order| + 1 && Slots(g) == MAX_GROUP_SIZE * |g.order| && Slots(g') == Slots(g) + 1))
  {
    match op
    case Take(created) =>
      AcquireOk(g, created);
      if !NeedsNew(g) {
        OccupySlots(g, g.order[|g.order| - 1]);
        OrderLength(g, g.order[|g.order| - 1]);
      } else if created.Some? {
        NewOnlyWhenFull(g);
        TotalFull(g.order, g.size);
        AddEmptyOk(g, created.value);
        TotalSame(g.order, g.size, g.size[created.value := 0]);
        TotalAppend(g.order, created.value, g.size[created.value := 0]);
        OccupySlots(Groups(g.order + [created.value], g.size[created.value := 0]), created.value);
        OrderLength(Groups(g.order + [created.value], g.size[created.value := 0]), created.value);
      }
    case Give(x) =>
      ReleaseOk(g, x);
      TotalChange(g.order, x, g.size, g.size[x] - 1);
      WithoutDuplicates(g.order, x);
  }

  lemma {:induction false} OrderLength(g: Groups, x: GroupId)
    requires Ok(g) && x in g.size
    ensures |Occupy(g, x).order| == |g.order|
  {
    WithoutDuplicates(g.order, x);
  }

  ghost predicate LegalRun(g: Groups, ops: seq<SlotOp>)
    decreases |ops|
  {
    ops == [] || (Ok(g) && Legal(g, ops[0]) && LegalRun(Apply(g, ops[0]), ops[1..]))
  }

  ghost function Run(g: Groups, ops: seq<SlotOp>): Groups
    requires LegalRun(g, ops)
    decreases |ops|
  {
    if ops == [] then g else Run(Apply(g, ops[0]), ops[1..])
  }

  /** The largest number of slots in use at the same time. */
  ghost function Peak(g: Groups, ops: seq<SlotOp>): nat
    requires LegalRun(g, ops)
    decreases |ops|
  {
    if ops == [] then Slots(g)
    else
      var rest := Peak(Apply(g, ops[0]), ops[1..]);
      if Slots(g) > rest then Slots(g) else rest
  }

  lemma {:induction false} RunBound(g: Groups, ops: seq<SlotOp>, peak: nat)
    requires Ok(g) && LegalRun(g, ops) && Peak(g, ops) <= peak
    requires g.order != [] ==> MAX_GROUP_SIZE * (|g.order| - 1) < peak
    ensures Ok(Run(g, ops))
    ensures Run(g, ops).order != [] ==> MAX_GROUP_SIZE * (|Run(g, ops).order| - 1) < peak
    decreases |ops|
  {
    if ops != [] {
      ApplySlots(g, ops[0]);
      var g' := Apply(g, ops[0]);
      assert Slots(g') <= Peak(g', ops[1..]);
      RunBound(g', ops[1..], peak);
    }
  }

  const NO_GROUPS := Groups([], map[])

  /** Never more groups than the busiest moment needed: at most its number of slots divided by 32, rounded up. */
  lemma {:induction false} GroupsBound(ops: seq<SlotOp>)
    requires LegalRun(NO_GROUPS, ops)
    ensures |Run(NO_GROUPS, ops).order| <= (Peak(NO_GROUPS, ops) + MAX_GROUP_SIZE - 1) / MAX_GROUP_SIZE
  {
    RunBound(NO_GROUPS, ops, Peak(NO_GROUPS, ops));
  }
}
