/** The scheduler of the crononome source: a priority queue that re-arms each entry as it fires. */
module Cron {
  import opened Base

  /** Nanoseconds in a second: the clock counts nanoseconds, firing times are whole seconds. */
  const NS: int := 1_000_000_000

  /** Entries are named by their position in the configuration. */
  datatype Item = Item(at: int, entry: nat)

  /** The next firing time of an entry after a reading of the clock, if its expression has one. */
  type Schedule = (nat, int) -> Option<int>

  /** `upcoming` walks a fixed set of whole seconds: the answer lies strictly after the clock, stays the
      same until it is reached, and an exhausted entry stays exhausted. */
  ghost predicate Upcoming(sched: Schedule) {
    forall e, t, u | t <= u :: Coherent(sched, e, t, u)
  }

  ghost predicate Coherent(sched: Schedule, e: nat, t: int, u: int) {
    match sched(e, t)
    case None => sched(e, u).None?
    case Some(at) => at * NS > t && (u < at * NS ==> sched(e, u) == Some(at))
  }

  /** The schedule answers with the first firing time of the entry after the clock. */
  ghost predicate FirstAfter(fires: (nat, int) -> bool, sched: Schedule, e: nat, t: int) {
    match sched(e, t)
    case None => forall s | s * NS > t :: !fires(e, s)
    case Some(at) => at * NS > t && fires(e, at) && forall s | t < s * NS && s < at :: !fires(e, s)
  }

  /** Any schedule that answers from a fixed set of firing times is coherent. */
  lemma FixedSet(fires: (nat, int) -> bool, sched: Schedule)
    requires forall e, t :: FirstAfter(fires, sched, e, t)
    ensures Upcoming(sched)
  {
    forall e: nat, t, u | t <= u ensures Coherent(sched, e, t, u) {
      assert FirstAfter(fires, sched, e, t) && FirstAfter(fires, sched, e, u);
      if sched(e, t).Some? && u < sched(e, t).value * NS {
        var at := sched(e, t).value;
        assert sched(e, u).Some?;
        var next := sched(e, u).value;
        assert !(next < at) && !(at < next);
      }
    }
  }

  // ---------------------------------------------------------------- the queue

  predicate Earliest(q: seq<Item>, k: nat)
    requires k < |q|
  {
    forall i | 0 <= i < |q| :: q[k].at <= q[i].at
  }

  lemma {:induction false} EarliestExists(q: seq<Item>)
    requires q != []
    ensures exists k | 0 <= k < |q| :: Earliest(q, k)
  {
    if |q| == 1 {
      assert Earliest(q, 0);
    } else {
      EarliestExists(q[1..]);
      var k :| 0 <= k < |q[1..]| && Earliest(q[1..], k);
      assert forall i | 1 <= i < |q| :: q[i] == q[1..][i - 1];
      var k' := k + 1;
      if q[0].at <= q[k'].at {
        assert Earliest(q, 0);
      } else {
        assert Earliest(q, k');
      }
    }
  }

  function Without(q: seq<Item>, k: nat): seq<Item>
    requires k < |q|
  {
    q[..k] + q[k + 1..]
  }

  function Arm(sched: Schedule, q: seq<Item>, entry: nat, now: int): seq<Item> {
    var at := sched(entry, now);
    if at.Some? then q + [Item(at.value, entry)] else q
  }

  function ArmAll(sched: Schedule, n: nat, clock: nat -> int): seq<Item> {
    if n == 0 then [] else Arm(sched, ArmAll(sched, n - 1, clock), n - 1, clock(n - 1))
  }

  /** One call of `next`: the clock when it looks at the head, the clock when it re-arms the entry, and
      which of the earliest items the heap had at its head, if that one was due. */
  datatype Call = Call(popAt: int, armAt: int, pick: Option<nat>)

  predicate Due(item: Item, now: int) {
    item.at <= now / NS
  }

  predicate Legal(q: seq<Item>, c: Call) {
    && c.popAt <= c.armAt
    && match c.pick
       case None => forall i | 0 <= i < |q| :: !Due(q[i], c.popAt)
       case Some(k) => k < |q| && Earliest(q, k) && Due(q[k], c.popAt)
  }

  function After(sched: Schedule, q: seq<Item>, c: Call): seq<Item>
    requires Legal(q, c)
  {
    match c.pick
    case None => q
    case Some(k) => Arm(sched, Without(q, k), q[k].entry, c.armAt)
  }

  class ChronomicQueue {
    var q: seq<Item>

    constructor ()
      ensures q == []
    {
      q := [];
    }

    method Enqueue(sched: Schedule, entry: nat, now: int)
      modifies this
      ensures q == Arm(sched, old(q), entry, now)
    {
      var at := sched(entry, now);
      if at.Some? {
        q := q + [Item(at.value, entry)];
      }
    }

    method Init(sched: Schedule, n: nat, clock: nat -> int)
      requires q == []
      modifies this
      ensures q == ArmAll(sched, n, clock)
    {
      for i := 0 to n
        invariant q == ArmAll(sched, i, clock)
      {
        Enqueue(sched, i, clock(i));
      }
    }

    /** The earliest item, if it is due. Among equally early ones the heap may have any at its head. */
    method Pop(now: int) returns (r: Option<Item>, ghost pick: Option<nat>)
      modifies this
      ensures Legal(old(q), Call(now, now, pick))
      ensures pick.None? ==> r == None && q == old(q)
      ensures pick.Some? ==> r == Some(old(q)[pick.value]) && q == Without(old(q), pick.value)
    {
      if q == [] {
        return None, None;
      }
      EarliestExists(q);
      var k :| 0 <= k < |q| && Earliest(q, k);
      var x := q[k];
      if x.at <= now / NS {
        q := Without(q, k);
        return Some(x), Some(k);
      }
      return None, None;
    }

    method Next(sched: Schedule, popAt: int, armAt: int) returns (r: Option<nat>, ghost c: Call)
      requires popAt <= armAt
      modifies this
      ensures c.popAt == popAt && c.armAt == armAt && Legal(old(q), c)
      ensures q == After(sched, old(q), c)
      ensures r == if c.pick.Some? then Some(old(q)[c.pick.value].entry) else None
    {
      var item, pick := Pop(popAt);
      c := Call(popAt, armAt, pick);
      if item.None? {
        return None, c;
      }
      Enqueue(sched, item.value.entry, armAt);
      r := Some(item.value.entry);
    }
  }

  // ---------------------------------------------------------------- whole runs

  /** Calls under a clock that never goes back. */
  ghost predicate Possible(sched: Schedule, q: seq<Item>, clock: int, calls: seq<Call>)
    decreases |calls|
  {
    calls == [] ||
    (&& clock <= calls[0].popAt && Legal(q, calls[0])
     && Possible(sched, After(sched, q, calls[0]), calls[0].armAt, calls[1..]))
  }

  ghost function Run(sched: Schedule, q: seq<Item>, clock: int, calls: seq<Call>): seq<Item>
    requires Possible(sched, q, clock, calls)
    decreases |calls|
  {
    if calls == [] then q else Run(sched, After(sched, q, calls[0]), calls[0].armAt, calls[1..])
  }

  ghost function ClockAfter(clock: int, calls: seq<Call>): int {
    if calls == [] then clock else calls[|calls| - 1].armAt
  }

  /** The item that the i-th call fired. */
  ghost function FiredBy(sched: Schedule, q: seq<Item>, clock: int, calls: seq<Call>, i: nat): Item
    requires Possible(sched, q, clock, calls)
    requires i < |calls| && calls[i].pick.Some?
    decreases |calls|
  {
    if i == 0 then q[calls[0].pick.value]
    else FiredBy(sched, After(sched, q, calls[0]), calls[0].armAt, calls[1..], i - 1)
  }

  predicate Queued(q: seq<Item>, e: nat) {
    exists i | 0 <= i < |q| :: q[i].entry == e
  }

  /** An entry is not queued twice; if it lies ahead, it is queued for its next firing time; and if it is
      not queued at all, it has none. */
  ghost predicate EntryOk(sched: Schedule, n: nat, q: seq<Item>, clock: int, e: nat) {
    && (forall i, j | 0 <= i < |q| && 0 <= j < |q| && q[i].entry == e && q[j].entry == e :: i == j)
    && (forall i | 0 <= i < |q| && q[i].entry == e && q[i].at * NS > clock :: sched(e, clock) == Some(q[i].at))
    && (if e < n then Queued(q, e) || sched(e, clock).None? else !Queued(q, e))
  }

  ghost predicate Inv(sched: Schedule, n: nat, q: seq<Item>, clock: int) {
    forall e: nat :: EntryOk(sched, n, q, clock, e)
  }

  lemma Later(sched: Schedule, n: nat, q: seq<Item>, clock: int, now: int)
    requires Upcoming(sched) && Inv(sched, n, q, clock) && clock <= now
    ensures Inv(sched, n, q, now)
  {
    forall e: nat ensures EntryOk(sched, n, q, now, e) {
      assert EntryOk(sched, n, q, clock, e);
      assert Coherent(sched, e, clock, now);
    }
  }

  /** The invariant for all entries but one, which is about to be armed. */
  ghost predicate InvBut(sched: Schedule, n: nat, q: seq<Item>, clock: int, e: nat) {
    !Queued(q, e) && forall d: nat | d != e :: EntryOk(sched, n, q, clock, d)
  }

  lemma QueuedMore(q: seq<Item>, tail: seq<Item>, d: nat)
    requires Queued(q, d)
    ensures Queued(q + tail, d)
  {
    var i :| 0 <= i < |q| && q[i].entry == d;
    assert (q + tail)[i].entry == d;
  }

  lemma QueuedStill(q: seq<Item>, k: nat, d: nat)
    requires Queued(q, d) && k < |q| && d != q[k].entry
    ensures Queued(Without(q, k), d)
  {
    var i :| 0 <= i < |q| && q[i].entry == d;
    var i' := if i < k then i else i - 1;
    assert Without(q, k)[i'].entry == d;
  }

  lemma ArmInv(sched: Schedule, n: nat, q: seq<Item>, clock: int, e: nat)
    requires InvBut(sched, n, q, clock, e) && e < n
    ensures Inv(sched, n, Arm(sched, q, e, clock), clock)
  {
    var r := Arm(sched, q, e, clock);
    forall d: nat ensures EntryOk(sched, n, r, clock, d) {
      assert d != e ==> EntryOk(sched, n, q, clock, d);
      if sched(e, clock).Some? {
        var tail := [Item(sched(e, clock).value, e)];
        assert (q + tail)[|q|].entry == e;
        if Queued(q, d) {
          QueuedMore(q, tail, d);
        }
      }
    }
  }

  lemma WithoutInv(sched: Schedule, n: nat, q: seq<Item>, clock: int, k: nat)
    requires Inv(sched, n, q, clock) && k < |q|
    ensures q[k].entry < n && InvBut(sched, n, Without(q, k), clock, q[k].entry)
  {
    var r := Without(q, k);
    assert Queued(q, q[k].entry) && EntryOk(sched, n, q, clock, q[k].entry);
    assert forall i | 0 <= i < |r| :: r[i] == if i < k then q[i] else q[i + 1];
    forall d: nat | d != q[k].entry ensures EntryOk(sched, n, r, clock, d) {
      assert EntryOk(sched, n, q, clock, d);
      if Queued(q, d) {
        QueuedStill(q, k, d);
      }
    }
  }

  lemma CallInv(sched: Schedule, n: nat, q: seq<Item>, clock: int, c: Call)
    requires Upcoming(sched) && Inv(sched, n, q, clock) && clock <= c.popAt && Legal(q, c)
    ensures Inv(sched, n, After(sched, q, c), c.armAt)
  {
    Later(sched, n, q, clock, c.armAt);
    if c.pick.Some? {
      WithoutInv(sched, n, q, c.armAt, c.pick.value);
      ArmInv(sched, n, Without(q, c.pick.value), c.armAt, q[c.pick.value].entry);
    }
  }

  lemma {:induction false} InitInv(sched: Schedule, n: nat, clock: nat -> int)
    requires Upcoming(sched)
    requires forall i, j | 0 <= i < j < n :: clock(i) <= clock(j)
    ensures n > 0 ==> Inv(sched, n, ArmAll(sched, n, clock), clock(n - 1))
  {
    if n > 1 {
      InitInv(sched, n - 1, clock);
      Later(sched, n - 1, ArmAll(sched, n - 1, clock), clock(n - 2), clock(n - 1));
    }
    if n > 0 {
      var q, now := ArmAll(sched, n - 1, clock), clock(n - 1);
      forall d: nat | d != n - 1 ensures EntryOk(sched, n, q, now, d) {
        assert n > 1 ==> EntryOk(sched, n - 1, q, now, d);
      }
      assert n > 1 ==> EntryOk(sched, n - 1, q, now, n - 1);
      ArmInv(sched, n, q, now, n - 1);
    }
  }

  lemma {:induction false} RunInv(sched: Schedule, n: nat, q: seq<Item>, clock: int, calls: seq<Call>)
    requires Upcoming(sched) && Inv(sched, n, q, clock) && Possible(sched, q, clock, calls)
    ensures Inv(sched, n, Run(sched, q, clock, calls), ClockAfter(clock, calls))
    decreases |calls|
  {
    if calls != [] {
      CallInv(sched, n, q, clock, calls[0]);
      RunInv(sched, n, After(sched, q, calls[0]), calls[0].armAt, calls[1..]);
      assert ClockAfter(clock, calls) == ClockAfter(calls[0].armAt, calls[1..]);
    }
  }

  // ---------------------------------------------------------------- results

  /** In any run each entry is queued at most once, and one that still has a firing time ahead is queued,
      for that time or for an earlier one that is due. */
  lemma QueuedOnce(sched: Schedule, n: nat, clock: nat -> int, calls: seq<Call>)
    requires Upcoming(sched) && n > 0
    requires forall i, j | 0 <= i < j < n :: clock(i) <= clock(j)
    requires Possible(sched, ArmAll(sched, n, clock), clock(n - 1), calls)
    ensures var q := Run(sched, ArmAll(sched, n, clock), clock(n - 1), calls);
            var now := ClockAfter(clock(n - 1), calls);
            && (forall i, j | 0 <= i < j < |q| :: q[i].entry != q[j].entry)
            && (forall e: nat | e < n && sched(e, now).Some? :: Queued(q, e))
            && (forall i | 0 <= i < |q| :: q[i].at * NS <= now || sched(q[i].entry, now) == Some(q[i].at))
  {
    InitInv(sched, n, clock);
    RunInv(sched, n, ArmAll(sched, n, clock), clock(n - 1), calls);
    InvMeans(sched, n, Run(sched, ArmAll(sched, n, clock), clock(n - 1), calls), ClockAfter(clock(n - 1), calls));
  }

  lemma InvMeans(sched: Schedule, n: nat, q: seq<Item>, now: int)
    requires Inv(sched, n, q, now)
    ensures forall i, j | 0 <= i < j < |q| :: q[i].entry != q[j].entry
    ensures forall e: nat | e < n && sched(e, now).Some? :: Queued(q, e)
    ensures forall i | 0 <= i < |q| :: q[i].at * NS <= now || sched(q[i].entry, now) == Some(q[i].at)
  {
    forall i, j | 0 <= i < j < |q| ensures q[i].entry != q[j].entry {
      assert EntryOk(sched, n, q, now, q[i].entry);
    }
    forall e: nat | e < n && sched(e, now).Some? ensures Queued(q, e) {
      assert EntryOk(sched, n, q, now, e);
    }
    forall i | 0 <= i < |q| ensures q[i].at * NS <= now || sched(q[i].entry, now) == Some(q[i].at) {
      assert EntryOk(sched, n, q, now, q[i].entry);
    }
  }

  lemma SecondsLeft(at: int, now: int)
    ensures at <= now / NS <==> at * NS <= now
  {
  }

  /** When a call finds nothing to fire, the queue holds exactly the next firing time of each entry. */
  lemma IdleIsExact(sched: Schedule, n: nat, q: seq<Item>, clock: int, c: Call)
    requires Upcoming(sched) && Inv(sched, n, q, clock) && clock <= c.popAt && Legal(q, c) && c.pick.None?
    ensures forall e: nat, at | e < n :: Item(at, e) in q <==> sched(e, c.popAt) == Some(at)
  {
    Later(sched, n, q, clock, c.popAt);
    forall e: nat, at | e < n ensures Item(at, e) in q <==> sched(e, c.popAt) == Some(at) {
      SecondsLeft(at, c.popAt);
      assert EntryOk(sched, n, q, c.popAt, e);
      if sched(e, c.popAt) == Some(at) {
        assert Queued(q, e);
        var i :| 0 <= i < |q| && q[i].entry == e;
        SecondsLeft(q[i].at, c.popAt);
        assert q[i] == Item(at, e);
      }
    }
  }

  ghost predicate AllFrom(q: seq<Item>, least: int) {
    forall i | 0 <= i < |q| :: q[i].at >= least
  }

  ghost predicate EntryAfter(q: seq<Item>, e: nat, bound: int) {
    forall i | 0 <= i < |q| && q[i].entry == e :: q[i].at * NS > bound
  }

  lemma BoundsStep(sched: Schedule, q: seq<Item>, clock: int, c: Call, least: int, e: nat, bound: int)
    requires Upcoming(sched) && clock <= c.popAt && Legal(q, c)
    requires least * NS <= clock && bound <= clock && AllFrom(q, least) && EntryAfter(q, e, bound)
    ensures AllFrom(After(sched, q, c), least) && EntryAfter(After(sched, q, c), e, bound)
  {
    if c.pick.Some? {
      assert Coherent(sched, q[c.pick.value].entry, c.armAt, c.armAt);
    }
  }

  lemma {:induction false} BoundsRun(sched: Schedule, q: seq<Item>, clock: int, calls: seq<Call>, j: nat,
                                     least: int, e: nat, bound: int)
    requires Upcoming(sched) && Possible(sched, q, clock, calls) && j < |calls| && calls[j].pick.Some?
    requires least * NS <= clock && bound <= clock && AllFrom(q, least) && EntryAfter(q, e, bound)
    ensures var x := FiredBy(sched, q, clock, calls, j); x.at >= least && (x.entry == e ==> x.at * NS > bound)
    decreases |calls|
  {
    if j > 0 {
      BoundsStep(sched, q, clock, calls[0], least, e, bound);
      BoundsRun(sched, After(sched, q, calls[0]), calls[0].armAt, calls[1..], j - 1, least, e, bound);
    }
  }

  /** What a firing leaves behind: nothing earlier, and the entry itself only after the present. */
  lemma FiringBounds(sched: Schedule, q: seq<Item>, c: Call, n: nat, clock: int)
    requires Upcoming(sched) && Inv(sched, n, q, clock) && clock <= c.popAt && Legal(q, c) && c.pick.Some?
    ensures var x := q[c.pick.value];
            && x.at * NS <= c.popAt
            && AllFrom(After(sched, q, c), x.at) && EntryAfter(After(sched, q, c), x.entry, c.armAt)
  {
    SecondsLeft(q[c.pick.value].at, c.popAt);
    WithoutInv(sched, n, q, clock, c.pick.value);
    assert Coherent(sched, q[c.pick.value].entry, c.armAt, c.armAt);
  }

  /** Entries fire never early, earliest first, and each one at strictly increasing times: a later firing
      of the same entry lies after the clock at which the earlier one was re-armed. */
  lemma {:induction false} FiringOrder(sched: Schedule, n: nat, q: seq<Item>, clock: int, calls: seq<Call>,
                                       i: nat, j: nat)
    requires Upcoming(sched) && Inv(sched, n, q, clock) && Possible(sched, q, clock, calls)
    requires i < j < |calls| && calls[i].pick.Some? && calls[j].pick.Some?
    ensures var x, y := FiredBy(sched, q, clock, calls, i), FiredBy(sched, q, clock, calls, j);
            && x.at * NS <= calls[i].popAt && x.at <= y.at
            && (x.entry == y.entry ==> x.at < y.at && calls[i].armAt < y.at * NS)
    decreases |calls|
  {
    if i == 0 {
      FirstFiring(sched, n, q, clock, calls, j);
    } else {
      CallInv(sched, n, q, clock, calls[0]);
      FiringOrder(sched, n, After(sched, q, calls[0]), calls[0].armAt, calls[1..], i - 1, j - 1);
    }
  }

  lemma FirstFiring(sched: Schedule, n: nat, q: seq<Item>, clock: int, calls: seq<Call>, j: nat)
    requires Upcoming(sched) && Inv(sched, n, q, clock) && Possible(sched, q, clock, calls)
    requires 0 < j < |calls| && calls[0].pick.Some? && calls[j].pick.Some?
    ensures var x, y := q[calls[0].pick.value], FiredBy(sched, q, clock, calls, j);
            && x.at * NS <= calls[0].popAt && x.at <= y.at
            && (x.entry == y.entry ==> x.at < y.at && calls[0].armAt < y.at * NS)
  {
    var x, now := q[calls[0].pick.value], calls[0].armAt;
    FiringBounds(sched, q, calls[0], n, clock);
    BoundsRun(sched, After(sched, q, calls[0]), now, calls[1..], j - 1, x.at, x.entry, now);
  }

  /** Nothing fires before its time. */
  lemma {:induction false} NeverEarly(sched: Schedule, q: seq<Item>, clock: int, calls: seq<Call>, i: nat)
    requires Possible(sched, q, clock, calls) && i < |calls| && calls[i].pick.Some?
    ensures FiredBy(sched, q, clock, calls, i).at * NS <= calls[i].popAt
    decreases |calls|
  {
    if i == 0 {
      SecondsLeft(q[calls[0].pick.value].at, calls[0].popAt);
    } else {
      NeverEarly(sched, After(sched, q, calls[0]), calls[0].armAt, calls[1..], i - 1);
    }
  }

  /** None of the calls from `i` on, before `j`, fires the entry. */
  ghost predicate NotFired(sched: Schedule, q: seq<Item>, clock: int, calls: seq<Call>, i: nat, j: nat, e: nat)
    requires Possible(sched, q, clock, calls) && j <= |calls|
  {
    forall k | i <= k < j && calls[k].pick.Some? :: FiredBy(sched, q, clock, calls, k).entry != e
  }

  lemma NotFiredRest(sched: Schedule, q: seq<Item>, clock: int, calls: seq<Call>, i: nat, j: nat, e: nat)
    requires Possible(sched, q, clock, calls) && 0 < i <= j <= |calls| && NotFired(sched, q, clock, calls, i, j, e)
    ensures NotFired(sched, After(sched, q, calls[0]), calls[0].armAt, calls[1..], i - 1, j - 1, e)
  {
    forall k | i - 1 <= k < j - 1 && calls[1..][k].pick.Some?
      ensures FiredBy(sched, After(sched, q, calls[0]), calls[0].armAt, calls[1..], k).entry != e
    {
      assert calls[k + 1].pick.Some? && FiredBy(sched, q, clock, calls, k + 1).entry != e;
    }
  }

  /** A queued item stays until its entry fires. */
  lemma ItemStays(sched: Schedule, q: seq<Item>, c: Call, item: Item)
    requires Legal(q, c) && item in q && (c.pick.Some? ==> q[c.pick.value].entry != item.entry)
    ensures item in After(sched, q, c)
  {
    if c.pick.Some? {
      var k := c.pick.value;
      var i :| 0 <= i < |q| && q[i] == item;
      var i' := if i < k then i else i - 1;
      assert Without(q, k)[i'] == item;
      assert After(sched, q, c)[i'] == item;
    }
  }

  /** The first firing of an entry that is queued is for the time it is queued for. */
  lemma {:induction false} FiresAsQueued(sched: Schedule, n: nat, q: seq<Item>, clock: int, calls: seq<Call>, j: nat,
                                         item: Item)
    requires Upcoming(sched) && Inv(sched, n, q, clock) && Possible(sched, q, clock, calls) && item in q
    requires j < |calls| && calls[j].pick.Some? && FiredBy(sched, q, clock, calls, j).entry == item.entry
    requires NotFired(sched, q, clock, calls, 0, j, item.entry)
    ensures FiredBy(sched, q, clock, calls, j) == item
    decreases |calls|
  {
    if j == 0 {
      assert EntryOk(sched, n, q, clock, item.entry);
      var i :| 0 <= i < |q| && q[i] == item;
      assert i == calls[0].pick.value;
    } else {
      assert calls[0].pick.Some? ==> FiredBy(sched, q, clock, calls, 0).entry != item.entry;
      CallInv(sched, n, q, clock, calls[0]);
      ItemStays(sched, q, calls[0], item);
      NotFiredTail(sched, q, clock, calls, j, item.entry);
      FiresAsQueued(sched, n, After(sched, q, calls[0]), calls[0].armAt, calls[1..], j - 1, item);
    }
  }

  lemma NotFiredTail(sched: Schedule, q: seq<Item>, clock: int, calls: seq<Call>, j: nat, e: nat)
    requires Possible(sched, q, clock, calls) && 0 < j <= |calls| && NotFired(sched, q, clock, calls, 0, j, e)
    ensures NotFired(sched, After(sched, q, calls[0]), calls[0].armAt, calls[1..], 0, j - 1, e)
  {
    assert NotFired(sched, q, clock, calls, 1, j, e);
    NotFiredRest(sched, q, clock, calls, 1, j, e);
  }

  /** Two successive firings of an entry: the second is for the first firing time after the clock at which
      the entry was re-armed. */
  lemma {:induction false} NextFiring(sched: Schedule, n: nat, q: seq<Item>, clock: int, calls: seq<Call>, i: nat,
                                      j: nat)
    requires Upcoming(sched) && Inv(sched, n, q, clock) && Possible(sched, q, clock, calls)
    requires i < j < |calls| && calls[i].pick.Some? && calls[j].pick.Some?
    requires FiredBy(sched, q, clock, calls, j).entry == FiredBy(sched, q, clock, calls, i).entry
    requires NotFired(sched, q, clock, calls, i + 1, j, FiredBy(sched, q, clock, calls, i).entry)
    ensures var x, y := FiredBy(sched, q, clock, calls, i), FiredBy(sched, q, clock, calls, j);
            sched(x.entry, calls[i].armAt) == Some(y.at)
    decreases |calls|
  {
    NotFiredRest(sched, q, clock, calls, i + 1, j, FiredBy(sched, q, clock, calls, i).entry);
    if i == 0 {
      Rearmed(sched, n, q, clock, calls[0], calls, j);
    } else {
      CallInv(sched, n, q, clock, calls[0]);
      NextFiring(sched, n, After(sched, q, calls[0]), calls[0].armAt, calls[1..], i - 1, j - 1);
    }
  }

  /** An entry that fires again has been re-armed. */
  lemma {:induction false} Rearmed(sched: Schedule, n: nat, q: seq<Item>, clock: int, c: Call, calls: seq<Call>, j: nat)
    requires Upcoming(sched) && Inv(sched, n, q, clock) && Possible(sched, q, clock, calls)
    requires 0 < j < |calls| && c == calls[0] && c.pick.Some? && calls[j].pick.Some?
    requires FiredBy(sched, q, clock, calls, j).entry == q[c.pick.value].entry
    requires NotFired(sched, After(sched, q, c), c.armAt, calls[1..], 0, j - 1, q[c.pick.value].entry)
    ensures sched(q[c.pick.value].entry, c.armAt) == Some(FiredBy(sched, q, clock, calls, j).at)
  {
    var e, rest := q[c.pick.value].entry, After(sched, q, c);
    WithoutInv(sched, n, q, clock, c.pick.value);
    CallInv(sched, n, q, clock, c);
    if sched(e, c.armAt).Some? {
      var item := Item(sched(e, c.armAt).value, e);
      assert rest[|rest| - 1] == item;
      FiresAsQueued(sched, n, rest, c.armAt, calls[1..], j - 1, item);
    } else {
      NeverFires(sched, rest, c.armAt, calls[1..], j - 1, e);
    }
  }

  /** An entry that is not queued does not fire. */
  lemma {:induction false} NeverFires(sched: Schedule, q: seq<Item>, clock: int, calls: seq<Call>, j: nat, e: nat)
    requires Possible(sched, q, clock, calls) && j < |calls| && calls[j].pick.Some? && !Queued(q, e)
    ensures FiredBy(sched, q, clock, calls, j).entry != e
    decreases |calls|
  {
    if j > 0 {
      NotQueuedAfter(sched, q, calls[0], e);
      NeverFires(sched, After(sched, q, calls[0]), calls[0].armAt, calls[1..], j - 1, e);
    }
  }

  lemma NotQueuedAfter(sched: Schedule, q: seq<Item>, c: Call, e: nat)
    requires Legal(q, c) && !Queued(q, e)
    ensures !Queued(After(sched, q, c), e)
  {
    if c.pick.Some? {
      var k, r := c.pick.value, Without(q, c.pick.value);
      assert q[k].entry != e;
      forall i | 0 <= i < |r| ensures r[i].entry != e {
        assert r[i] == if i < k then q[i] else q[i + 1];
      }
    }
  }

  /** Exactly which firing times are skipped between two successive firings of an entry: of those after the
      first, the ones that were no longer ahead when it was re-armed. */
  lemma SkippedExactly(fires: (nat, int) -> bool, sched: Schedule, n: nat, q: seq<Item>, clock: int,
                       calls: seq<Call>, i: nat, j: nat, s: int)
    requires forall e, t :: FirstAfter(fires, sched, e, t)
    requires Inv(sched, n, q, clock) && Possible(sched, q, clock, calls)
    requires i < j < |calls| && calls[i].pick.Some? && calls[j].pick.Some?
    requires FiredBy(sched, q, clock, calls, j).entry == FiredBy(sched, q, clock, calls, i).entry
    requires NotFired(sched, q, clock, calls, i + 1, j, FiredBy(sched, q, clock, calls, i).entry)
    requires fires(FiredBy(sched, q, clock, calls, i).entry, s) && s > FiredBy(sched, q, clock, calls, i).at
    ensures s < FiredBy(sched, q, clock, calls, j).at <==> s * NS <= calls[i].armAt
  {
    FixedSet(fires, sched);
    NextFiring(sched, n, q, clock, calls, i, j);
    var x := FiredBy(sched, q, clock, calls, i);
    assert FirstAfter(fires, sched, x.entry, calls[i].armAt);
  }

  /** How many queued items are due. */
  function CountDue(q: seq<Item>, now: int): (r: nat)
    ensures r <= |q|
    ensures r == 0 <==> forall i | 0 <= i < |q| :: !Due(q[i], now)
  {
    if q == [] then 0 else (if Due(q[|q| - 1], now) then 1 else 0) + CountDue(q[..|q| - 1], now)
  }

  lemma {:induction false} CountWithout(q: seq<Item>, k: nat, now: int)
    requires k < |q| && Due(q[k], now)
    ensures CountDue(Without(q, k), now) == CountDue(q, now) - 1
    decreases |q|
  {
    var last := |q| - 1;
    if k == last {
      assert Without(q, k) == q[..last];
    } else {
      CountWithout(q[..last], k, now);
      WithoutLast(q, k);
    }
  }

  lemma WithoutLast(q: seq<Item>, k: nat)
    requires k < |q| - 1
    ensures var r := Without(q, k);
            r[|r| - 1] == q[|q| - 1] && r[..|r| - 1] == Without(q[..|q| - 1], k)
  {
  }

  lemma CountArm(sched: Schedule, q: seq<Item>, e: nat, now: int)
    requires Upcoming(sched)
    ensures CountDue(Arm(sched, q, e, now), now) == CountDue(q, now)
  {
    var at := sched(e, now);
    assert Coherent(sched, e, now, now);
    if at.Some? {
      SecondsLeft(at.value, now);
      assert (q + [Item(at.value, e)])[..|q|] == q;
    }
  }

  function Fired(calls: seq<Call>): nat {
    if calls == [] then 0 else (if calls[0].pick.Some? then 1 else 0) + Fired(calls[1..])
  }

  /** Under a clock that stands still, repeated calls fire exactly the items that are due, then nothing. */
  lemma {:induction false} FixedClock(sched: Schedule, q: seq<Item>, now: int, calls: seq<Call>)
    requires Upcoming(sched) && Possible(sched, q, now, calls)
    requires forall i | 0 <= i < |calls| :: calls[i].popAt == now && calls[i].armAt == now
    ensures Fired(calls) == if |calls| <= CountDue(q, now) then |calls| else CountDue(q, now)
    ensures CountDue(Run(sched, q, now, calls), now) == CountDue(q, now) - Fired(calls)
    decreases |calls|
  {
    if calls != [] {
      var c := calls[0];
      if c.pick.Some? {
        CountWithout(q, c.pick.value, now);
        CountArm(sched, Without(q, c.pick.value), q[c.pick.value].entry, now);
      }
      FixedClock(sched, After(sched, q, c), now, calls[1..]);
    }
  }

  /** So a source with `n` entries is idle after at most `n` firings in one instant. */
  lemma IdleWithinEntries(sched: Schedule, n: nat, q: seq<Item>, now: int, calls: seq<Call>)
    requires Upcoming(sched) && Inv(sched, n, q, now) && Possible(sched, q, now, calls)
    requires forall i | 0 <= i < |calls| :: calls[i].popAt == now && calls[i].armAt == now
    ensures Fired(calls) <= n
  {
    InvMeans(sched, n, q, now);
    forall i | 0 <= i < |q| ensures q[i].entry < n {
      assert EntryOk(sched, n, q, now, q[i].entry) && Queued(q, q[i].entry);
    }
    FixedClock(sched, q, now, calls);
    AtMostEntries(q, n);
  }

  lemma {:induction false} AtMostEntries(q: seq<Item>, n: nat)
    requires forall i | 0 <= i < |q| :: q[i].entry < n
    requires forall i, j | 0 <= i < j < |q| :: q[i].entry != q[j].entry
    ensures |q| <= n
  {
    var entries := set i | 0 <= i < |q| :: q[i].entry;
    EntriesSize(q, entries);
    UpToSize(entries, n);
  }

  lemma {:induction false} EntriesSize(q: seq<Item>, entries: set<nat>)
    requires forall i, j | 0 <= i < j < |q| :: q[i].entry != q[j].entry
    requires forall i | 0 <= i < |q| :: q[i].entry in entries
    ensures |q| <= |entries|
  {
    if q != [] {
      EntriesSize(q[1..], entries - {q[0].entry});
    }
  }

  lemma {:induction false} UpToSize(s: set<nat>, n: nat)
    requires forall e :: e in s ==> e < n
    ensures |s| <= n
  {
    if n > 0 {
      UpToSize(s - {n - 1}, n - 1);
    } else {
      assert s == {};
    }
  }
}
