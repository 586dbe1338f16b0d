/** The pipeline loop between its forward queue, its contraflow queue and a fixed set of offramps
    that acknowledge what they handle: a step system in which every interleaving is allowed. */
module Contraflow {

  /** Queue size of an offramp, insights per handled message, messages sent per pipeline step. */
  datatype Limits = Limits(queue: nat, insights: nat, fanout: nat)

  /** An offramp: messages waiting in its bounded queue, and the insights it has still to emit for
      the message it is handling (none left means that it is ready for the next one). */
  datatype Offramp = Offramp(waiting: nat, owed: nat)

  /** `forward` events wait for the pipeline, `contra` insights wait in its unbounded queue, and
      `pending` holds the offramps to which the event being handled is still to be sent. `probed` says
      that the pipeline has polled the contraflow queue, found it empty, and is about to poll for an event. */
  datatype State = State(forward: nat, contra: nat, pending: seq<nat>, offramps: seq<Offramp>, probed: bool)

  datatype Action =
    | Arrive                      // new input for the pipeline
    | TakeContra                  // the pipeline handles an insight
    | Probe                       // the pipeline finds no insight waiting, and turns to the events
    | TakeForward(sends: seq<nat>) // the pipeline handles an event, which is to go to these offramps
    | Send                        // the next pending message is put into its offramp's queue
    | Handle(who: nat, owes: nat) // an offramp takes a message, and will emit so many insights
    | Emit(who: nat)              // an offramp puts one insight into the contraflow queue

  predicate Enabled(l: Limits, s: State, a: Action) {
    match a
    case Arrive => true
    case TakeContra => s.pending == [] && !s.probed && s.contra > 0
    case Probe =>
      // contraflow is polled first; a poll that then finds no event either changes nothing, so it is no
      // step, and an event that arrives between the two polls may as well have arrived before them
      s.pending == [] && !s.probed && s.contra == 0 && s.forward > 0
    case TakeForward(sends) =>
      // insights may have arrived since the probe
      && s.probed && s.forward > 0 && s.pending == []
      && |sends| <= l.fanout && forall i :: 0 <= i < |sends| ==> sends[i] < |s.offramps|
    case Send => s.pending != [] && s.pending[0] < |s.offramps| && s.offramps[s.pending[0]].waiting < l.queue
    case Handle(d, owes) =>
      d < |s.offramps| && s.offramps[d].owed == 0 && s.offramps[d].waiting > 0 && owes <= l.insights
    case Emit(d) => d < |s.offramps| && s.offramps[d].owed > 0
  }

  function Step(l: Limits, s: State, a: Action): State
    requires Enabled(l, s, a)
  {
    match a
    case Arrive => s.(forward := s.forward + 1)
    case TakeContra => s.(contra := s.contra - 1)
    case Probe => s.(probed := true)
    case TakeForward(sends) => s.(forward := s.forward - 1, pending := sends, probed := false)
    case Send =>
      var o := s.offramps[s.pending[0]];
      s.(pending := s.pending[1..], offramps := s.offramps[s.pending[0] := o.(waiting := o.waiting + 1)])
    case Handle(d, owes) => s.(offramps := s.offramps[d := Offramp(s.offramps[d].waiting - 1, owes)])
    case Emit(d) =>
      s.(contra := s.contra + 1, offramps := s.offramps[d := s.offramps[d].(owed := s.offramps[d].owed - 1)])
  }

  predicate Legal(l: Limits, s: State, run: seq<Action>)
    decreases |run|
  {
    run == [] || (Enabled(l, s, run[0]) && Legal(l, Step(l, s, run[0]), run[1..]))
  }

  function After(l: Limits, s: State, run: seq<Action>): State
    requires Legal(l, s, run)
    decreases |run|
  {
    if run == [] then s else After(l, Step(l, s, run[0]), run[1..])
  }

  /** Queues within their limits, pending messages for offramps that exist. */
  predicate WellFormed(l: Limits, s: State) {
    && (forall d :: 0 <= d < |s.offramps| ==> s.offramps[d].waiting <= l.queue && s.offramps[d].owed <= l.insights)
    && |s.pending| <= l.fanout
    && (forall i :: 0 <= i < |s.pending| ==> s.pending[i] < |s.offramps|)
    && (s.probed ==> s.forward > 0 && s.pending == [])
  }

  function Idle(n: nat): State {
    State(0, 0, [], seq(n, _ => Offramp(0, 0)), false)
  }

  lemma StepWellFormed(l: Limits, s: State, a: Action)
    requires WellFormed(l, s) && Enabled(l, s, a)
    ensures WellFormed(l, Step(l, s, a)) && |Step(l, s, a).offramps| == |s.offramps|
  {
  }

  // ---------------------------------------------------------------- a weighted sum over the offramps

  /** Every waiting message counts `w`, every insight still owed counts `u`. */
  function Load(w: nat, u: nat, offramps: seq<Offramp>): nat {
    if offramps == [] then 0
    else w * offramps[0].waiting + u * offramps[0].owed + Load(w, u, offramps[1..])
  }

  lemma {:induction false} LoadUpdate(w: nat, u: nat, offramps: seq<Offramp>, d: nat, o: Offramp)
    requires d < |offramps|
    ensures Load(w, u, offramps[d := o]) + w * offramps[d].waiting + u * offramps[d].owed
         == Load(w, u, offramps) + w * o.waiting + u * o.owed
  {
    if d == 0 {
      assert offramps[0 := o][1..] == offramps[1..];
    } else {
      assert offramps[d := o][1..] == offramps[1..][d - 1 := o];
      LoadUpdate(w, u, offramps[1..], d - 1, o);
    }
  }

  lemma {:induction false} LoadBound(l: Limits, offramps: seq<Offramp>)
    requires forall d :: 0 <= d < |offramps| ==> offramps[d].waiting <= l.queue && offramps[d].owed <= l.insights
    ensures Load(l.insights, 1, offramps) <= l.insights * (|offramps| * (l.queue + 1))
  {
    if offramps != [] {
      LoadBound(l, offramps[1..]);
      var n, q, d := l.insights, l.queue, |offramps| - 1;
      assert n * offramps[0].waiting <= n * q by { Monotone(n, offramps[0].waiting, q); }
      Distribute(n, q, d);
    }
  }

  lemma Monotone(n: nat, a: nat, b: nat)
    requires a <= b
    ensures n * a <= n * b
  {
  }

  lemma Distribute(n: nat, q: nat, d: nat)
    ensures n * ((d + 1) * (q + 1)) == n * (d * (q + 1)) + n * q + n
  {
    var e := d * (q + 1);
    assert (d + 1) * (q + 1) == e + (q + 1);
    assert n * (e + (q + 1)) == n * e + n * (q + 1);
  }

  // ---------------------------------------------------------------- the bound

  /** All insights that the messages now under way can still add to the queue, plus those in it. */
  function Potential(l: Limits, s: State): nat {
    s.contra + l.insights * |s.pending| + Load(l.insights, 1, s.offramps)
  }

  function Bound(l: Limits, offramps: nat): nat {
    l.insights * (offramps * (l.queue + 1)) + l.insights * l.fanout
  }

  /** Between the two polls there is room for the messages of one more event. */
  predicate Bounded(l: Limits, s: State) {
    && WellFormed(l, s)
    && Potential(l, s) <= if s.probed then l.insights * (|s.offramps| * (l.queue + 1)) else Bound(l, |s.offramps|)
  }

  /** What a step does to a sum that counts `w` per waiting and `u` per owed unit of the offramps. */
  lemma SendLoad(l: Limits, s: State, w: nat, u: nat)
    requires Enabled(l, s, Send)
    ensures Load(w, u, Step(l, s, Send).offramps) == Load(w, u, s.offramps) + w
    ensures |Step(l, s, Send).pending| == |s.pending| - 1
  {
    var d := s.pending[0];
    var o := s.offramps[d];
    LoadUpdate(w, u, s.offramps, d, o.(waiting := o.waiting + 1));
    assert w * (o.waiting + 1) == w * o.waiting + w;
  }

  lemma HandleLoad(l: Limits, s: State, d: nat, owes: nat, w: nat, u: nat)
    requires Enabled(l, s, Handle(d, owes))
    ensures Load(w, u, Step(l, s, Handle(d, owes)).offramps) + w == Load(w, u, s.offramps) + u * owes
  {
    var o := s.offramps[d];
    LoadUpdate(w, u, s.offramps, d, Offramp(o.waiting - 1, owes));
    assert w * o.waiting == w * (o.waiting - 1) + w;
    assert u * o.owed == 0;
  }

  lemma EmitLoad(l: Limits, s: State, d: nat, w: nat, u: nat)
    requires Enabled(l, s, Emit(d))
    ensures Load(w, u, Step(l, s, Emit(d)).offramps) + u == Load(w, u, s.offramps)
  {
    var o := s.offramps[d];
    LoadUpdate(w, u, s.offramps, d, o.(owed := o.owed - 1));
    assert u * o.owed == u * (o.owed - 1) + u;
  }

  /** Only taking a forward event can raise the potential, and between the probe and that it has been no
      more than the offramps can still emit. */
  lemma StepBounded(l: Limits, s: State, a: Action)
    requires Bounded(l, s) && Enabled(l, s, a)
    ensures Bounded(l, Step(l, s, a))
  {
    StepWellFormed(l, s, a);
    match a {
      case Arrive =>
      case TakeContra =>
      case Probe => LoadBound(l, s.offramps);
      case TakeForward(sends) => Monotone(l.insights, |sends|, l.fanout);
      case Send => SendKeeps(l, s);
      case Handle(d, owes) => HandleKeeps(l, s, d, owes);
      case Emit(d) => EmitKeeps(l, s, d);
    }
  }

  /** A message counts the same whether it is pending, waiting, or all of its insights are owed or queued. */
  lemma SendKeeps(l: Limits, s: State)
    requires Enabled(l, s, Send)
    ensures Potential(l, Step(l, s, Send)) == Potential(l, s)
  {
    var n := l.insights;
    SendLoad(l, s, n, 1);
    assert n * |s.pending| == n * (|s.pending| - 1) + n;
  }

  lemma HandleKeeps(l: Limits, s: State, d: nat, owes: nat)
    requires Enabled(l, s, Handle(d, owes))
    ensures Potential(l, Step(l, s, Handle(d, owes))) + l.insights == Potential(l, s) + owes
  {
    HandleLoad(l, s, d, owes, l.insights, 1);
  }

  lemma EmitKeeps(l: Limits, s: State, d: nat)
    requires Enabled(l, s, Emit(d))
    ensures Potential(l, Step(l, s, Emit(d))) == Potential(l, s)
  {
    EmitLoad(l, s, d, l.insights, 1);
  }

  lemma {:induction false} RunBounded(l: Limits, s: State, run: seq<Action>)
    requires Bounded(l, s) && Legal(l, s, run)
    ensures Bounded(l, After(l, s, run)) && |After(l, s, run).offramps| == |s.offramps|
    decreases |run|
  {
    if run != [] {
      StepBounded(l, s, run[0]);
      RunBounded(l, Step(l, s, run[0]), run[1..]);
    }
  }

  lemma IdleBounded(l: Limits, n: nat)
    ensures Bounded(l, Idle(n))
  {
    LoadUpdateZero(l.insights, Idle(n).offramps);
    NonNegative(l.insights, n * (l.queue + 1));
    NonNegative(l.insights, l.fanout);
  }

  lemma NonNegative(a: nat, b: nat)
    ensures a * b >= 0
  {
  }

  lemma {:induction false} LoadUpdateZero(n: nat, offramps: seq<Offramp>)
    requires forall d :: 0 <= d < |offramps| ==> offramps[d] == Offramp(0, 0)
    ensures Load(n, 1, offramps) == 0
  {
    if offramps != [] {
      LoadUpdateZero(n, offramps[1..]);
    }
  }

  lemma ContraOnly(l: Limits, s: State)
    requires Bounded(l, s)
    ensures s.contra <= Bound(l, |s.offramps|)
  {
    NonNegative(l.insights, |s.pending|);
    NonNegative(l.insights, l.fanout);
  }

  lemma Spread(n: nat, e: nat, k: nat)
    ensures n * (e + k) == n * e + n * k
  {
  }

  /** The unbounded contraflow queue is bounded: with D offramps it never holds more than
      N * (D * (Q + 1) + K) insights, in any interleaving and however much input arrives. */
  lemma ContraflowBounded(l: Limits, offramps: nat, run: seq<Action>)
    requires Legal(l, Idle(offramps), run)
    ensures After(l, Idle(offramps), run).contra <= l.insights * (offramps * (l.queue + 1) + l.fanout)
  {
    IdleBounded(l, offramps);
    RunBounded(l, Idle(offramps), run);
    ContraOnly(l, After(l, Idle(offramps), run));
    Spread(l.insights, offramps * (l.queue + 1), l.fanout);
  }

  // ---------------------------------------------------------------- progress

  /** The work left in a state, in steps at most: an insight in the queue is one step, an owed one
      two, a waiting message one more than all it can owe, and so on up to a forward event, which takes
      a probe besides. */
  function WeightOfMessage(l: Limits): nat { 2 * l.insights + 1 }

  function WeightOfEvent(l: Limits): nat { (WeightOfMessage(l) + 1) * l.fanout + 2 }

  function Work(l: Limits, s: State): nat {
    WeightOfEvent(l) * s.forward + s.contra + (WeightOfMessage(l) + 1) * |s.pending|
    + Load(WeightOfMessage(l), 2, s.offramps) + if s.probed then 0 else 1
  }

  lemma ForwardWorks(l: Limits, s: State, sends: seq<nat>)
    requires Enabled(l, s, TakeForward(sends))
    ensures Work(l, Step(l, s, TakeForward(sends))) < Work(l, s)
  {
    var m, e := WeightOfMessage(l) + 1, WeightOfEvent(l);
    Monotone(m, |sends|, l.fanout);
    assert e * s.forward == e * (s.forward - 1) + e;
  }

  lemma SendWorks(l: Limits, s: State)
    requires Enabled(l, s, Send)
    ensures Work(l, Step(l, s, Send)) < Work(l, s)
  {
    var m := WeightOfMessage(l) + 1;
    SendLoad(l, s, m - 1, 2);
    assert m * |s.pending| == m * (|s.pending| - 1) + m;
  }

  lemma HandleWorks(l: Limits, s: State, d: nat, owes: nat)
    requires Enabled(l, s, Handle(d, owes))
    ensures Work(l, Step(l, s, Handle(d, owes))) < Work(l, s)
  {
    HandleLoad(l, s, d, owes, WeightOfMessage(l), 2);
  }

  lemma EmitWorks(l: Limits, s: State, d: nat)
    requires Enabled(l, s, Emit(d))
    ensures Work(l, Step(l, s, Emit(d))) < Work(l, s)
  {
    EmitLoad(l, s, d, WeightOfMessage(l), 2);
  }

  /** Without new input every step leaves less work. */
  lemma StepWorks(l: Limits, s: State, a: Action)
    requires Enabled(l, s, a) && !a.Arrive?
    ensures Work(l, Step(l, s, a)) < Work(l, s)
  {
    match a {
      case TakeContra =>
      case Probe =>
      case TakeForward(sends) => ForwardWorks(l, s, sends);
      case Send => SendWorks(l, s);
      case Handle(d, owes) => HandleWorks(l, s, d, owes);
      case Emit(d) => EmitWorks(l, s, d);
    }
  }

  predicate Drained(s: State) {
    && s.forward == 0 && s.contra == 0 && s.pending == []
    && forall d :: 0 <= d < |s.offramps| ==> s.offramps[d] == Offramp(0, 0)
  }

  /** No reachable state deadlocks: a state with work left has a step that needs no new input. */
  lemma NoDeadlock(l: Limits, s: State) returns (a: Action)
    requires WellFormed(l, s) && l.queue >= 1
    requires !Drained(s)
    ensures Enabled(l, s, a) && !a.Arrive?
  {
    if d: nat :| d < |s.offramps| && s.offramps[d] != Offramp(0, 0) {
      a := if s.offramps[d].owed > 0 then Emit(d) else Handle(d, 0);
    } else if s.pending != [] {
      a := Send;
    } else if s.probed {
      a := TakeForward([]);
    } else if s.contra > 0 {
      a := TakeContra;
    } else {
      a := Probe;
    }
  }

  predicate Closed(run: seq<Action>) {
    forall i :: 0 <= i < |run| ==> !run[i].Arrive?
  }

  /** Without new input every schedule ends, after no more steps than there is work; and one that
      cannot go on has drained everything. */
  lemma {:induction false} EveryScheduleDrains(l: Limits, s: State, run: seq<Action>)
    requires WellFormed(l, s) && Legal(l, s, run) && Closed(run)
    ensures WellFormed(l, After(l, s, run))
    ensures |run| + Work(l, After(l, s, run)) <= Work(l, s)
    ensures l.queue >= 1 && (forall a :: Enabled(l, After(l, s, run), a) ==> a.Arrive?)
            ==> Drained(After(l, s, run))
    decreases |run|
  {
    if run != [] {
      StepWorks(l, s, run[0]);
      StepWellFormed(l, s, run[0]);
      assert forall i :: 0 <= i < |run[1..]| ==> run[1..][i] == run[i + 1];
      EveryScheduleDrains(l, Step(l, s, run[0]), run[1..]);
    } else if l.queue >= 1 && !Drained(s) {
      var a := NoDeadlock(l, s);
    }
  }

  // ---------------------------------------------------------------- the bound is exact

  ghost predicate Reaches(l: Limits, s: State, t: State) {
    exists run :: Legal(l, s, run) && After(l, s, run) == t
  }

  lemma ReachesSelf(l: Limits, s: State)
    ensures Reaches(l, s, s)
  {
    assert Legal(l, s, []) && After(l, s, []) == s;
  }

  /** One step, and then on. */
  lemma StepReaches(l: Limits, s: State, a: Action, t: State)
    requires Enabled(l, s, a) && Reaches(l, Step(l, s, a), t)
    ensures Reaches(l, s, t)
  {
    var run :| Legal(l, Step(l, s, a), run) && After(l, Step(l, s, a), run) == t;
    var all := [a] + run;
    assert all[0] == a && all[1..] == run;
    assert Legal(l, s, all) && After(l, s, all) == t;
  }

  function Zeros(n: nat): seq<Offramp> {
    seq(n, _ => Offramp(0, 0))
  }

  /** The pipeline between two events, with no insight waiting. */
  function Ready(forward: nat, offramps: seq<Offramp>): State {
    State(forward, 0, [], offramps, false)
  }

  /** Everything under way can end up in the contraflow queue before the pipeline looks at it. */
  lemma {:induction false} AllBecomesContra(l: Limits, s: State)
    requires WellFormed(l, s) && l.queue >= 1 && s.forward == 0
    ensures Reaches(l, s, State(0, Potential(l, s), [], Zeros(|s.offramps|), false))
    decreases Work(l, s)
  {
    var goal := State(0, Potential(l, s), [], Zeros(|s.offramps|), false);
    if d: nat :| d < |s.offramps| && s.offramps[d].owed > 0 {
      EmitKeeps(l, s, d);
      OnToContra(l, s, Emit(d), goal);
    } else if d: nat :| d < |s.offramps| && s.offramps[d].waiting > 0 {
      HandleKeeps(l, s, d, l.insights);
      OnToContra(l, s, Handle(d, l.insights), goal);
    } else if s.pending != [] {
      SendKeeps(l, s);
      OnToContra(l, s, Send, goal);
    } else {
      LoadUpdateZero(l.insights, s.offramps);
      assert s.offramps == Zeros(|s.offramps|) && l.insights * |s.pending| == 0;
      ReachesSelf(l, s);
    }
  }

  lemma {:induction false} OnToContra(l: Limits, s: State, a: Action, goal: State)
    requires WellFormed(l, s) && l.queue >= 1 && s.forward == 0 && Enabled(l, s, a)
    requires a.Emit? || a.Handle? || a.Send?
    requires goal == State(0, Potential(l, Step(l, s, a)), [], Zeros(|s.offramps|), false)
    ensures Reaches(l, s, goal)
    decreases Work(l, s), 0
  {
    StepWorks(l, s, a);
    StepWellFormed(l, s, a);
    AllBecomesContra(l, Step(l, s, a));
    StepReaches(l, s, a, goal);
  }

  /** One event is sent to one offramp. */
  lemma SendTo(l: Limits, forward: nat, offramps: seq<Offramp>, d: nat, goal: State)
    requires forward > 0 && l.fanout >= 1 && d < |offramps| && offramps[d].waiting < l.queue
    requires var o := offramps[d];
             Reaches(l, Ready(forward - 1, offramps[d := o.(waiting := o.waiting + 1)]), goal)
    ensures Reaches(l, Ready(forward, offramps), goal)
  {
    var s := Ready(forward, offramps);
    var t := s.(probed := true);
    var u := State(forward - 1, 0, [d], offramps, false);
    assert [d][1..] == [];
    StepReaches(l, u, Send, goal);
    assert Step(l, t, TakeForward([d])) == u;
    StepReaches(l, t, TakeForward([d]), goal);
    StepReaches(l, s, Probe, goal);
  }

  /** The queue of an offramp can be filled. */
  lemma {:induction false} QueueFills(l: Limits, forward: nat, offramps: seq<Offramp>, d: nat, goal: State)
    requires l.fanout >= 1 && d < |offramps| && offramps[d].waiting <= l.queue
    requires Reaches(l, Ready(forward, offramps[d := offramps[d].(waiting := l.queue)]), goal)
    ensures Reaches(l, Ready(forward + (l.queue - offramps[d].waiting), offramps), goal)
    decreases l.queue - offramps[d].waiting
  {
    var o := offramps[d];
    if o.waiting < l.queue {
      var next := offramps[d := o.(waiting := o.waiting + 1)];
      assert next[d := next[d].(waiting := l.queue)] == offramps[d := o.(waiting := l.queue)];
      QueueFills(l, forward, next, d, goal);
      SendTo(l, forward + (l.queue - o.waiting), offramps, d, goal);
    } else {
      assert offramps[d := o.(waiting := l.queue)] == offramps;
    }
  }

  /** The first `j` offramps are busy with a message and have a full queue, the others are idle. */
  function Filled(l: Limits, n: nat, j: nat): seq<Offramp> {
    seq(n, d => if d < j then Offramp(l.queue, l.insights) else Offramp(0, 0))
  }

  /** An idle offramp is sent a message, takes it, and then has its queue filled. */
  lemma FillOne(l: Limits, n: nat, j: nat, forward: nat, goal: State)
    requires l.queue >= 1 && l.fanout >= 1 && j < n
    requires Reaches(l, Ready(forward, Filled(l, n, j + 1)), goal)
    ensures Reaches(l, Ready(forward + l.queue + 1, Filled(l, n, j)), goal)
  {
    var before := Filled(l, n, j);
    var sent, busy := before[j := Offramp(1, 0)], before[j := Offramp(0, l.insights)];
    assert busy[j := busy[j].(waiting := l.queue)] == Filled(l, n, j + 1);
    QueueFills(l, forward, busy, j, goal);
    var s := Ready(forward + l.queue, sent);
    assert Step(l, s, Handle(j, l.insights)).offramps == busy;
    StepReaches(l, s, Handle(j, l.insights), goal);
    assert before[j := before[j].(waiting := 1)] == sent;
    SendTo(l, forward + l.queue + 1, before, j, goal);
  }

  lemma {:induction false} FillAll(l: Limits, n: nat, j: nat, goal: State)
    requires l.queue >= 1 && l.fanout >= 1 && j <= n
    requires Reaches(l, Ready(1, Filled(l, n, n)), goal)
    ensures Reaches(l, Ready(1 + (n - j) * (l.queue + 1), Filled(l, n, j)), goal)
    decreases n - j
  {
    if j < n {
      var j' := j + 1;
      FillAll(l, n, j', goal);
      FillOne(l, n, j, 1 + (n - j') * (l.queue + 1), goal);
      assert (n - j) * (l.queue + 1) == (n - j') * (l.queue + 1) + (l.queue + 1);
    }
  }

  lemma {:induction false} Arrivals(l: Limits, s: State, k: nat, goal: State)
    requires Reaches(l, s.(forward := s.forward + k), goal)
    ensures Reaches(l, s, goal)
    decreases k
  {
    if k > 0 {
      Arrivals(l, s.(forward := s.forward + 1), k - 1, goal);
      StepReaches(l, s, Arrive, goal);
    }
  }

  lemma {:induction false} FilledLoad(l: Limits, n: nat)
    ensures Load(l.insights, 1, Filled(l, n, n)) == l.insights * (n * (l.queue + 1))
  {
    if n > 0 {
      assert Filled(l, n, n)[1..] == Filled(l, n - 1, n - 1);
      FilledLoad(l, n - 1);
      Distribute(l.insights, l.queue, n - 1);
    }
  }

  /** The bound is attained, for any number of offramps: some run fills the contraflow queue with exactly
      N * (D * (Q + 1) + K) insights. */
  lemma BoundAttained(l: Limits, n: nat)
    requires n >= 1 && l.queue >= 1 && l.fanout >= 1
    ensures Reaches(l, Idle(n), State(0, l.insights * (n * (l.queue + 1) + l.fanout), [], Zeros(n), false))
  {
    var k := l.fanout;
    var sends: seq<nat> := seq(k, _ => 0);
    var goal := State(0, l.insights * (n * (l.queue + 1) + k), [], Zeros(n), false);
    // the last event meets offramps that are all full
    var full := Ready(1, Filled(l, n, n));
    var t := full.(probed := true);
    var u := State(0, 0, sends, Filled(l, n, n), false);
    FilledLoad(l, n);
    assert Potential(l, u) == l.insights * (n * (l.queue + 1) + k);
    AllBecomesContra(l, u);
    assert Step(l, t, TakeForward(sends)) == u;
    StepReaches(l, t, TakeForward(sends), goal);
    StepReaches(l, full, Probe, goal);
    // the events before it fill them
    FillAll(l, n, 0, goal);
    assert Filled(l, n, 0) == Idle(n).offramps;
    Arrivals(l, Idle(n), 1 + n * (l.queue + 1), goal);
  }

  // ---------------------------------------------------------------- one event's insights are no bound

  /** Nothing is under way in the offramps, and nothing can get there. */
  predicate Silent(l: Limits, s: State) {
    && s.contra == 0 && (forall d :: 0 <= d < |s.offramps| ==> s.offramps[d] == Offramp(0, 0))
    && (l.fanout == 0 ==> s.pending == [])
    && (l.queue == 0 || l.fanout == 0 || |s.offramps| == 0)
  }

  lemma {:induction false} StaysSilent(l: Limits, s: State, run: seq<Action>)
    requires Silent(l, s) && Legal(l, s, run)
    ensures Silent(l, After(l, s, run))
    decreases |run|
  {
    if run != [] {
      StaysSilent(l, Step(l, s, run[0]), run[1..]);
    }
  }

  /** The most insights that the contraflow queue ever holds. */
  function Most(l: Limits, n: nat): nat {
    if n == 0 || l.queue == 0 || l.fanout == 0 then 0 else l.insights * (n * (l.queue + 1) + l.fanout)
  }

  ghost predicate BoundedBy(l: Limits, n: nat, b: nat) {
    forall run :: Legal(l, Idle(n), run) ==> After(l, Idle(n), run).contra <= b
  }

  /** Exactly which numbers bound the queue in every run. */
  lemma LeastBound(l: Limits, n: nat, b: nat)
    ensures BoundedBy(l, n, b) <==> Most(l, n) <= b
  {
    if n == 0 || l.queue == 0 || l.fanout == 0 {
      forall run | Legal(l, Idle(n), run) ensures After(l, Idle(n), run).contra <= b {
        StaysSilent(l, Idle(n), run);
      }
    } else if Most(l, n) <= b {
      forall run | Legal(l, Idle(n), run) ensures After(l, Idle(n), run).contra <= b {
        ContraflowBounded(l, n, run);
      }
    } else {
      BoundAttained(l, n);
      var goal := State(0, Most(l, n), [], Zeros(n), false);
      var run :| Legal(l, Idle(n), run) && After(l, Idle(n), run) == goal;
      assert After(l, Idle(n), run).contra > b;
    }
  }

  /** The insights that one message can trigger at an offramp, or those that one event can trigger at all
      the offramps it is sent to, bound the queue, as the source says, if and only if the queue stays
      empty for ever. */
  lemma OneToN(l: Limits, n: nat)
    ensures BoundedBy(l, n, l.insights) <==> l.insights == 0 || n == 0 || l.queue == 0 || l.fanout == 0
    ensures BoundedBy(l, n, l.insights * l.fanout) <==> BoundedBy(l, n, 0)
    ensures BoundedBy(l, n, 0) <==> l.insights == 0 || n == 0 || l.queue == 0 || l.fanout == 0
  {
    LeastBound(l, n, l.insights);
    LeastBound(l, n, l.insights * l.fanout);
    LeastBound(l, n, 0);
    if l.insights > 0 && n > 0 && l.queue > 0 && l.fanout > 0 {
      MoreThanOne(l.insights, n, l.queue, l.fanout);
    }
  }

  lemma MoreThanOne(m: nat, n: nat, q: nat, k: nat)
    requires m >= 1 && n >= 1 && q >= 1 && k >= 1
    ensures m * (n * (q + 1) + k) > m * k >= m
  {
    var e := n * (q + 1);
    Monotone(q + 1, 1, n);
    assert m * (e + k) == m * e + m * k;
    Monotone(m, 1, e);
    Monotone(m, 1, k);
  }
}
