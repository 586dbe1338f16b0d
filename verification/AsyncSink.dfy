/** A bounded queue of running tasks, and how the Elastic sink uses it to limit its requests. */
module AsyncSink {
  import opened Base

  datatype EnqueueError = AtCapacity
  datatype DequeueError = Empty | NotReady

  // ---------------------------------------------------------------- the queue

  /** The receivers of running tasks, oldest first. A receiver is named by the number of its channel; what
      the tasks have sent so far is `mail`. */
  class Queue<T> {
    var queue: seq<nat>
    const capacity: nat

    constructor (capacity: nat)
      ensures this.capacity == capacity && queue == []
    {
      this.capacity := capacity;
      queue := [];
    }

    method Enqueue(rx: nat) returns (r: Result<(), EnqueueError>)
      modifies this
      ensures if |old(queue)| < capacity then r == Ok(()) && queue == old(queue) + [rx]
              else r == Err(AtCapacity) && queue == old(queue)
    {
      if |queue| >= capacity {
        r := Err(AtCapacity);
      } else {
        queue := queue + [rx];
        r := Ok(());
      }
    }

    /** Takes the result of the oldest task, if that one has reported; a younger one has to wait. */
    method Dequeue(mail: map<nat, T>) returns (r: Result<T, DequeueError>)
      modifies this
      ensures old(queue) == [] ==> r == Err(Empty) && queue == []
      ensures old(queue) != [] && old(queue)[0] in mail ==>
                r == Ok(mail[old(queue)[0]]) && [old(queue)[0]] + queue == old(queue)
      ensures old(queue) != [] && old(queue)[0] !in mail ==> r == Err(NotReady) && queue == old(queue)
    {
      if queue == [] {
        return Err(Empty);
      }
      var rx := queue[0];
      queue := queue[1..];
      if rx in mail {
        r := Ok(mail[rx]);
      } else {
        queue := [rx] + queue;
        r := Err(NotReady);
      }
    }

    function HasCapacity(): bool
      reads this
    {
      |queue| < capacity
    }
  }

  // ---------------------------------------------------------------- the sink as a step system

  /** Requests are numbered in the order in which they are spawned; `mail` holds those that have reported. */
  datatype State = State(queue: seq<nat>, spawned: nat, mail: map<nat, bool>, taken: seq<nat>,
                         dropped: nat, invalid: nat, overflow: nat)

  datatype Step =
    | Offer(wellFormed: bool)          // an event arrives at the sink
    | Report(task: nat, ok: bool)      // a request finishes, its outcome is sent

  function Start(): State {
    State([], 0, map[], [], 0, 0, 0)
  }

  /** Make room by taking the oldest result, if it is there. */
  function Taken(s: State): State {
    if s.queue != [] && s.queue[0] in s.mail then s.(queue := s.queue[1..], taken := s.taken + [s.queue[0]]) else s
  }

  function Spawned(capacity: nat, s: State, wellFormed: bool): State {
    if !wellFormed then s.(invalid := s.invalid + 1)
    else if |s.queue| < capacity then s.(queue := s.queue + [s.spawned], spawned := s.spawned + 1)
    else s.(spawned := s.spawned + 1, overflow := s.overflow + 1)
  }

  predicate HeadWaits(s: State) {
    s.queue != [] && s.queue[0] !in s.mail
  }

  function OfferStep(capacity: nat, s: State, wellFormed: bool): State {
    if HeadWaits(s) && |s.queue| >= capacity then s.(dropped := s.dropped + 1)
    else Spawned(capacity, Taken(s), wellFormed)
  }

  predicate Enabled(s: State, step: Step) {
    match step
    case Offer(_) => true
    case Report(task, _) => task < s.spawned && task !in s.mail
  }

  function Next(capacity: nat, s: State, step: Step): State {
    match step
    case Offer(wellFormed) => OfferStep(capacity, s, wellFormed)
    case Report(task, ok) => s.(mail := s.mail[task := ok])
  }

  ghost predicate Possible(capacity: nat, s: State, steps: seq<Step>)
    decreases |steps|
  {
    steps == [] || (Enabled(s, steps[0]) && Possible(capacity, Next(capacity, s, steps[0]), steps[1..]))
  }

  function Run(capacity: nat, s: State, steps: seq<Step>): State
    decreases |steps|
  {
    if steps == [] then s else Run(capacity, Next(capacity, s, steps[0]), steps[1..])
  }

  /** The requests that have been spawned and have not reported. */
  function Running(s: State): set<nat> {
    set i | 0 <= i < s.spawned && i !in s.mail
  }

  function Upto(n: nat): (r: seq<nat>)
    ensures |r| == n && forall i | 0 <= i < n :: r[i] == i
  {
    seq(n, i => i)
  }

  /** What the sink has done with its events so far is kept in ghost fields. */
  class Elastic {
    const queue: Queue<bool>
    var mail: map<nat, bool>
    var spawned: nat
    ghost var taken: seq<nat>
    ghost var dropped: nat
    ghost var invalid: nat
    ghost var overflow: nat

    constructor (concurrency: nat)
      ensures fresh(queue) && queue.capacity == concurrency && Snapshot() == Start()
    {
      queue := new Queue(concurrency);
      spawned, mail, taken := 0, map[], [];
      dropped, invalid, overflow := 0, 0, 0;
    }

    ghost function Snapshot(): State
      reads this, queue
    {
      State(queue.queue, spawned, mail, taken, dropped, invalid, overflow)
    }

    method MaybeEnque(wellFormed: bool)
      modifies this, queue
      ensures Snapshot() == OfferStep(queue.capacity, old(Snapshot()), wellFormed)
    {
      ghost var before := queue.queue;
      var r := queue.Dequeue(mail);
      if r == Err(NotReady) && !queue.HasCapacity() {
        dropped := dropped + 1;
      } else {
        if r.Ok? {
          taken := taken + [before[0]];
          assert queue.queue == before[1..];
        }
        EnqueueSendFuture(wellFormed);
      }
    }

    /** The request is on its way before its receiver is queued. */
    method EnqueueSendFuture(wellFormed: bool)
      modifies this, queue
      ensures Snapshot() == Spawned(queue.capacity, old(Snapshot()), wellFormed)
    {
      if !wellFormed {
        invalid := invalid + 1;
        return;
      }
      var rx := spawned;
      spawned := spawned + 1;
      var r := queue.Enqueue(rx);
      if r.Err? {
        overflow := overflow + 1;
      }
    }
  }

  // ---------------------------------------------------------------- results

  ghost predicate Inv(capacity: nat, s: State) {
    && |s.queue| <= capacity
    && s.overflow == (if capacity == 0 then s.spawned else 0)
    && (capacity >= 1 ==> s.taken + s.queue == Upto(s.spawned))
    && (capacity >= 1 ==> forall i :: i in s.taken ==> i in s.mail)
  }

  lemma TakenInv(capacity: nat, s: State)
    requires Inv(capacity, s)
    ensures Inv(capacity, Taken(s))
    ensures capacity >= 1 && !HeadWaits(s) ==> |Taken(s).queue| < capacity
  {
    if s.queue != [] && s.queue[0] in s.mail {
      assert s.queue == [s.queue[0]] + s.queue[1..];
      Assoc(s.taken, [s.queue[0]], s.queue[1..]);
    }
  }

  lemma SpawnedInv(capacity: nat, s: State, wellFormed: bool)
    requires Inv(capacity, s) && (capacity >= 1 ==> |s.queue| < capacity)
    ensures Inv(capacity, Spawned(capacity, s, wellFormed))
  {
    if wellFormed && capacity >= 1 {
      Assoc(s.taken, s.queue, [s.spawned]);
      assert Upto(s.spawned) + [s.spawned] == Upto(s.spawned + 1);
    }
  }

  lemma StepInv(capacity: nat, s: State, step: Step)
    requires Inv(capacity, s) && Enabled(s, step)
    ensures Inv(capacity, Next(capacity, s, step))
  {
    match step {
      case Offer(wellFormed) =>
        TakenInv(capacity, s);
        if !(HeadWaits(s) && |s.queue| >= capacity) {
          SpawnedInv(capacity, Taken(s), wellFormed);
        }
      case Report(_, _) =>
    }
  }

  lemma {:induction false} RunInv(capacity: nat, s: State, steps: seq<Step>)
    requires Inv(capacity, s) && Possible(capacity, s, steps)
    ensures Inv(capacity, Run(capacity, s, steps))
    decreases |steps|
  {
    if steps != [] {
      StepInv(capacity, s, steps[0]);
      RunInv(capacity, Next(capacity, s, steps[0]), steps[1..]);
    }
  }

  function Elements(q: seq<nat>): set<nat> {
    set i | i in q
  }

  lemma {:induction false} ElementsBound(q: seq<nat>)
    ensures |Elements(q)| <= |q|
  {
    if q != [] {
      ElementsBound(q[1..]);
      assert Elements(q) == {q[0]} + Elements(q[1..]);
    }
  }

  lemma SubsetSize(a: set<nat>, b: set<nat>)
    requires a <= b
    ensures |a| <= |b|
  {
    assert b == a + (b - a);
  }

  lemma RunningQueued(s: State)
    requires s.taken + s.queue == Upto(s.spawned)
    requires forall i :: i in s.taken ==> i in s.mail
    ensures Running(s) <= Elements(s.queue)
  {
    forall i | i in Running(s) ensures i in s.queue {
      assert (s.taken + s.queue)[i] == i;
      if i < |s.taken| {
        assert s.taken[i] == i;
      } else {
        assert s.queue[i - |s.taken|] == i;
      }
    }
  }

  /** With room for at least one, in every interleaving: the queue is never met full by a new request, every
      unreported request holds a place in it, and so at most `capacity` of them run. */
  lemma ConcurrencyLimit(capacity: nat, steps: seq<Step>)
    requires capacity >= 1 && Possible(capacity, Start(), steps)
    ensures var s := Run(capacity, Start(), steps);
            && s.overflow == 0
            && (forall i :: i in Running(s) ==> i in s.queue)
            && |Running(s)| <= |s.queue| <= capacity
  {
    RunInv(capacity, Start(), steps);
    var s := Run(capacity, Start(), steps);
    RunningQueued(s);
    SubsetSize(Running(s), Elements(s.queue));
    ElementsBound(s.queue);
  }

  /** Results leave in the order of the requests, whatever order they finish in; none is skipped or taken
      twice, and each one taken had been reported. */
  lemma ResultsInOrder(capacity: nat, steps: seq<Step>)
    requires capacity >= 1 && Possible(capacity, Start(), steps)
    ensures var s := Run(capacity, Start(), steps);
            && |s.taken| + |s.queue| == s.spawned
            && (forall i | 0 <= i < |s.taken| :: s.taken[i] == i && i in s.mail)
            && (forall i | 0 <= i < |s.queue| :: s.queue[i] == |s.taken| + i)
  {
    RunInv(capacity, Start(), steps);
    var s := Run(capacity, Start(), steps);
    forall i | 0 <= i < |s.taken| ensures s.taken[i] == i && i in s.mail {
      assert (s.taken + s.queue)[i] == i;
      assert s.taken[i] in s.taken;
    }
    forall i | 0 <= i < |s.queue| ensures s.queue[i] == |s.taken| + i {
      assert (s.taken + s.queue)[|s.taken| + i] == |s.taken| + i;
    }
  }

  function Offers(n: nat): seq<Step> {
    seq(n, _ => Offer(true))
  }

  lemma {:induction false} OffersRun(s: State, n: nat)
    requires s.queue == []
    ensures Possible(0, s, Offers(n))
    ensures Run(0, s, Offers(n)) == s.(spawned := s.spawned + n, overflow := s.overflow + n)
    decreases n
  {
    if n > 0 {
      assert Offers(n)[0] == Offer(true) && Offers(n)[1..] == Offers(n - 1);
      OffersRun(Next(0, s, Offer(true)), n - 1);
    }
  }

  function Below(n: nat): (r: set<nat>)
    ensures |r| == n && forall i: nat :: i in r <==> i < n
  {
    if n == 0 then {} else Below(n - 1) + {n - 1}
  }

  /** With a capacity of zero there is no limit at all: requests are spawned before the full queue refuses
      them, so any number can run at once. */
  lemma ZeroIsUnlimited(n: nat)
    ensures Possible(0, Start(), Offers(n))
    ensures |Running(Run(0, Start(), Offers(n)))| == n
    ensures Run(0, Start(), Offers(n)).overflow == n
  {
    OffersRun(Start(), n);
    assert Running(Run(0, Start(), Offers(n))) == Below(n);
  }

  /** The number of events offered in a run. */
  function Offered(steps: seq<Step>): nat {
    if steps == [] then 0 else (if steps[0].Offer? then 1 else 0) + Offered(steps[1..])
  }

  /** Every event offered is accounted for once: dropped, refused as malformed, or sent. */
  lemma {:induction false} EveryEventOnce(capacity: nat, s: State, steps: seq<Step>)
    ensures var t := Run(capacity, s, steps);
            t.dropped + t.invalid + t.spawned == s.dropped + s.invalid + s.spawned + Offered(steps)
    decreases |steps|
  {
    if steps != [] {
      EveryEventOnce(capacity, Next(capacity, s, steps[0]), steps[1..]);
    }
  }

  lemma HeadStep(capacity: nat, s: State, step: Step, head: nat)
    requires |s.queue| <= capacity && HeadWaits(s) && s.queue[0] == head
    requires !(step.Report? && step.task == head)
    ensures var t := Next(capacity, s, step);
            && |t.queue| <= capacity && HeadWaits(t) && t.queue[0] == head && t.taken == s.taken
            && t.spawned + |s.queue| == s.spawned + |t.queue|
  {
  }

  /** A request that never reports stops the sink: no result is taken any more, and after at most
      `capacity` further requests every event is dropped. */
  lemma {:induction false} SilentHeadBlocks(capacity: nat, s: State, steps: seq<Step>, head: nat)
    requires |s.queue| <= capacity && HeadWaits(s) && s.queue[0] == head
    requires forall ok :: Report(head, ok) !in steps
    ensures var t := Run(capacity, s, steps);
            && HeadWaits(t) && t.queue[0] == head && t.taken == s.taken
            && t.spawned - s.spawned == |t.queue| - |s.queue| <= capacity - |s.queue|
    decreases |steps|
  {
    if steps != [] {
      HeadStep(capacity, s, steps[0], head);
      SilentHeadBlocks(capacity, Next(capacity, s, steps[0]), steps[1..], head);
    }
  }

  /** An event is dropped exactly when `capacity` requests are queued and the oldest has not reported, even
      if all the others have. */
  lemma DroppedExactly(capacity: nat, steps: seq<Step>, wellFormed: bool)
    requires capacity >= 1 && Possible(capacity, Start(), steps)
    ensures var s := Run(capacity, Start(), steps);
            OfferStep(capacity, s, wellFormed).dropped == s.dropped + 1 <==>
            |s.taken| + capacity == s.spawned && |s.taken| !in s.mail
  {
    RunInv(capacity, Start(), steps);
    ResultsInOrder(capacity, steps);
  }
}
