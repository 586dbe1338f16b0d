/** The lock-free counter that limits concurrent REST requests, as a step system: any number of
    tasks, one atomic access to the counter per step, every interleaving. */
module AtomicMaxCounter {

  /** Where a task is. `at` is the number of successful exchanges when its value was observed. */
  datatype Pc =
    | Start
    | IncLoaded(cur: nat, at: nat)    // passed the guard, about to exchange cur for cur + 1
    | IncRetry                        // the exchange failed, about to load again
    | Refused(cur: nat)               // gave up: max value reached
    | Working(inflight: nat, at: nat) // slot taken, request on its way
    | Aborted                         // left early, without giving the slot back
    | DecLoaded(cur: nat, at: nat)    // about to exchange cur for cur - 1
    | DecRetry
    | DecAtZero                       // found the counter at zero and left it alone
    | Done

  datatype State = State(max: nat, counter: nat, exchanges: nat, tasks: seq<Pc>)

  function Initial(max: nat, n: nat): State {
    State(max, 0, 0, seq(n, _ => Start))
  }

  // ---------------------------------------------------------------- steps

  /** The guard of `inc_from`. */
  function IncGuard(s: State): Pc {
    if s.counter + 1 > s.max then Refused(s.counter) else IncLoaded(s.counter, s.exchanges)
  }

  /** The guard of `dec_from`. */
  function DecGuard(cur: nat, at: nat): Pc {
    if cur == 0 then DecAtZero else DecLoaded(cur, at)
  }

  datatype Action =
    | Load(task: nat)      // read the counter, for the first time or after a failed exchange
    | Exchange(task: nat)  // compare and exchange
    | Finish(task: nat)    // the request is over: start giving the slot back
    | Abort(task: nat)     // the request's task returns early

  predicate Enabled(s: State, a: Action) {
    a.task < |s.tasks| &&
    match a
    case Load(i) => s.tasks[i].Start? || s.tasks[i].IncRetry? || s.tasks[i].DecRetry?
    case Exchange(i) => s.tasks[i].IncLoaded? || s.tasks[i].DecLoaded?
    case Finish(i) => s.tasks[i].Working?
    case Abort(i) => s.tasks[i].Working?
  }

  predicate Succeeds(s: State, a: Action)
    requires Enabled(s, a)
  {
    a.Exchange? && s.tasks[a.task].cur == s.counter
  }

  predicate Fails(s: State, a: Action)
    requires Enabled(s, a)
  {
    a.Exchange? && s.tasks[a.task].cur != s.counter
  }

  function Step(s: State, a: Action): State
    requires Enabled(s, a)
  {
    var pc := s.tasks[a.task];
    match a
    case Load(i) =>
      s.(tasks := s.tasks[i := if pc.DecRetry? then DecGuard(s.counter, s.exchanges) else IncGuard(s)])
    case Exchange(i) =>
      if pc.cur != s.counter then s.(tasks := s.tasks[i := if pc.IncLoaded? then IncRetry else DecRetry])
      else if pc.IncLoaded? then
        State(s.max, s.counter + 1, s.exchanges + 1, s.tasks[i := Working(pc.cur + 1, s.exchanges + 1)])
      else
        State(s.max, if s.counter == 0 then 0 else s.counter - 1, s.exchanges + 1, s.tasks[i := Done])
    case Finish(i) => s.(tasks := s.tasks[i := DecGuard(pc.inflight, pc.at)])
    case Abort(i) => s.(tasks := s.tasks[i := Aborted])
  }

  /** A run: every action is enabled when its turn comes. */
  predicate Legal(s: State, run: seq<Action>)
    decreases |run|
  {
    run == [] || (Enabled(s, run[0]) && Legal(Step(s, run[0]), run[1..]))
  }

  function After(s: State, run: seq<Action>): State
    requires Legal(s, run)
    decreases |run|
  {
    if run == [] then s else After(Step(s, run[0]), run[1..])
  }

  // ---------------------------------------------------------------- safety

  /** The task has been given a slot and has not given it back. */
  predicate Holds(pc: Pc) {
    pc.Working? || pc.Aborted? || pc.DecLoaded? || pc.DecRetry? || pc.DecAtZero?
  }

  function Count(p: Pc -> bool, tasks: seq<Pc>): (n: nat)
    ensures n <= |tasks|
  {
    if tasks == [] then 0 else (if p(tasks[0]) then 1 else 0) + Count(p, tasks[1..])
  }

  lemma {:induction false} CountUpdate(p: Pc -> bool, tasks: seq<Pc>, i: nat, pc: Pc)
    requires i < |tasks|
    ensures Count(p, tasks[i := pc]) + (if p(tasks[i]) then 1 else 0)
         == Count(p, tasks) + (if p(pc) then 1 else 0)
  {
    if i == 0 {
      assert tasks[0 := pc][1..] == tasks[1..];
    } else {
      assert tasks[i := pc][1..] == tasks[1..][i - 1 := pc];
      CountUpdate(p, tasks[1..], i - 1, pc);
    }
  }

  lemma {:induction false} CountPositive(p: Pc -> bool, tasks: seq<Pc>, i: nat)
    requires i < |tasks|
    ensures p(tasks[i]) ==> Count(p, tasks) >= 1
    ensures !p(tasks[i]) ==> Count(p, tasks) <= |tasks| - 1
  {
    if i > 0 {
      CountPositive(p, tasks[1..], i - 1);
    }
  }

  lemma {:induction false} CountNone(p: Pc -> bool, tasks: seq<Pc>)
    requires forall i :: 0 <= i < |tasks| ==> !p(tasks[i])
    ensures Count(p, tasks) == 0
  {
    if tasks != [] {
      CountNone(p, tasks[1..]);
    }
  }

  /** A value observed when the latest successful exchange was made is still the counter's. */
  predicate Current(s: State, cur: nat, at: nat) {
    at <= s.exchanges && (at == s.exchanges ==> cur == s.counter)
  }

  predicate TaskOk(s: State, pc: Pc) {
    match pc
    case IncLoaded(cur, at) => cur < s.max && Current(s, cur, at)
    case Working(inflight, at) => 0 < inflight && Current(s, inflight, at)
    case DecLoaded(cur, at) => 0 < cur && Current(s, cur, at)
    case Refused(cur) => cur == s.max
    case DecAtZero => false
    case _ => true
  }

  /** The counter is the number of slots taken and not given back, and never exceeds the maximum;
      whoever was refused had seen a full counter; nobody gives a slot back to a counter at zero. */
  predicate Inv(s: State) {
    && s.counter == Count(Holds, s.tasks)
    && s.counter <= s.max
    && forall i :: 0 <= i < |s.tasks| ==> TaskOk(s, s.tasks[i])
  }

  /** A step of one task leaves what the others know true. */
  lemma OtherOk(s: State, a: Action, pc: Pc)
    requires Inv(s) && Enabled(s, a) && TaskOk(s, pc)
    ensures TaskOk(Step(s, a), pc)
  {
  }

  lemma OwnOk(s: State, a: Action)
    requires Inv(s) && Enabled(s, a)
    ensures TaskOk(Step(s, a), Step(s, a).tasks[a.task])
  {
    assert TaskOk(s, s.tasks[a.task]);
    CountPositive(Holds, s.tasks, a.task);
  }

  lemma CounterOk(s: State, a: Action)
    requires Inv(s) && Enabled(s, a)
    ensures Step(s, a).counter == Count(Holds, Step(s, a).tasks) && Step(s, a).counter <= s.max
  {
    assert TaskOk(s, s.tasks[a.task]);
    CountUpdate(Holds, s.tasks, a.task, Step(s, a).tasks[a.task]);
  }

  lemma StepInv(s: State, a: Action)
    requires Inv(s) && Enabled(s, a)
    ensures Inv(Step(s, a))
  {
    var t := Step(s, a);
    CounterOk(s, a);
    forall i | 0 <= i < |t.tasks| ensures TaskOk(t, t.tasks[i]) {
      if i == a.task {
        OwnOk(s, a);
      } else {
        assert t.tasks[i] == s.tasks[i];
        OtherOk(s, a, s.tasks[i]);
      }
    }
  }

  /** Safety of every interleaving of any number of tasks. */
  lemma {:induction false} Safety(s: State, run: seq<Action>)
    requires Inv(s) && Legal(s, run)
    ensures Inv(After(s, run))
    decreases |run|
  {
    if run != [] {
      StepInv(s, run[0]);
      Safety(Step(s, run[0]), run[1..]);
    }
  }

  lemma InitialInv(max: nat, n: nat)
    ensures Inv(Initial(max, n))
  {
    CountNone(Holds, Initial(max, n).tasks);
  }

  // ---------------------------------------------------------------- aborted tasks

  predicate IsAborted(pc: Pc) { pc.Aborted? }

  lemma {:induction false} CountImplies(p: Pc -> bool, q: Pc -> bool, tasks: seq<Pc>)
    requires forall i :: 0 <= i < |tasks| && p(tasks[i]) ==> q(tasks[i])
    ensures Count(p, tasks) <= Count(q, tasks)
    ensures Count(p, tasks) == Count(q, tasks) ==>
              forall i :: 0 <= i < |tasks| && q(tasks[i]) ==> p(tasks[i])
  {
    if tasks != [] {
      CountImplies(p, q, tasks[1..]);
      if Count(p, tasks) == Count(q, tasks) {
        forall i | 0 <= i < |tasks| && q(tasks[i]) ensures p(tasks[i]) {
          if i > 0 {
            assert tasks[i] == tasks[1..][i - 1];
          }
        }
      }
    }
  }

  predicate IsOver(pc: Pc) { pc.Done? || pc.Refused? || pc.Aborted? }

  /** When every task is over, exactly the slots of the aborted ones are missing: the counter is back at
      zero if and only if nobody aborted. */
  lemma SlotsLost(max: nat, n: nat, run: seq<Action>)
    requires Legal(Initial(max, n), run)
    requires forall i :: 0 <= i < |After(Initial(max, n), run).tasks| ==> IsOver(After(Initial(max, n), run).tasks[i])
    ensures var t := After(Initial(max, n), run);
            && t.counter == Count(IsAborted, t.tasks)
            && (t.counter == 0 <==> forall i :: 0 <= i < |t.tasks| ==> !t.tasks[i].Aborted?)
  {
    InitialInv(max, n);
    Safety(Initial(max, n), run);
    var tasks := After(Initial(max, n), run).tasks;
    CountImplies(IsAborted, Holds, tasks);
    CountImplies(Holds, IsAborted, tasks);
    forall i: nat | i < |tasks| && tasks[i].Aborted? ensures Count(IsAborted, tasks) > 0 {
      CountPositive(IsAborted, tasks, i);
    }
    if forall i :: 0 <= i < |tasks| ==> !IsAborted(tasks[i]) {
      CountNone(IsAborted, tasks);
    }
  }

  /** A task that aborts keeps its slot for good: once as many have aborted as there are slots, the
      counter is stuck at the maximum and no later attempt ever gets through. */
  lemma {:induction false} AbortedSlotsStayTaken(s: State, run: seq<Action>)
    requires Inv(s) && Legal(s, run) && Count(IsAborted, s.tasks) == s.max
    ensures After(s, run).counter == s.max && After(s, run).exchanges == s.exchanges
    ensures Count(IsAborted, After(s, run).tasks) == s.max
    decreases |run|
  {
    CountImplies(IsAborted, Holds, s.tasks);
    if run != [] {
      var a := run[0];
      assert TaskOk(s, s.tasks[a.task]);
      StepInv(s, a);
      CountUpdate(IsAborted, s.tasks, a.task, Step(s, a).tasks[a.task]);
      AbortedSlotsStayTaken(Step(s, a), run[1..]);
    }
  }

  /** Whether a task that has not started can still be given a slot, in some continuation. */
  ghost predicate CanGetThrough(s: State, i: nat) {
    exists run :: Legal(s, run) && i < |After(s, run).tasks| && After(s, run).tasks[i].Working?
  }

  lemma OneStep(s: State, a: Action, i: nat)
    requires Enabled(s, a) && CanGetThrough(Step(s, a), i)
    ensures CanGetThrough(s, i)
  {
    var run :| Legal(Step(s, a), run) && i < |After(Step(s, a), run).tasks| && After(Step(s, a), run).tasks[i].Working?;
    var all := [a] + run;
    assert all[0] == a && all[1..] == run;
    assert Legal(s, all) && After(s, all) == After(Step(s, a), run);
  }

  /** While a slot is free, it can be had. */
  lemma FreeSlot(s: State, i: nat)
    requires i < |s.tasks| && s.tasks[i].Start? && s.counter < s.max
    ensures CanGetThrough(s, i)
  {
    var t := Step(s, Load(i));
    var u := Step(t, Exchange(i));
    assert Legal(u, []) && After(u, []) == u;
    OneStep(t, Exchange(i), i);
    OneStep(s, Load(i), i);
  }

  /** A task that holds a slot and is about to give it back, with the right value at hand. */
  lemma GiveBack(s: State, i: nat, j: nat)
    requires Inv(s) && i < |s.tasks| && s.tasks[i].Start? && j < |s.tasks|
    requires s.tasks[j].DecLoaded? && s.tasks[j].cur == s.counter
    ensures CanGetThrough(s, i)
  {
    assert TaskOk(s, s.tasks[j]);
    FreeSlot(Step(s, Exchange(j)), i);
    OneStep(s, Exchange(j), i);
  }

  /** Any other task that holds a slot without having aborted. */
  lemma HolderGivesBack(s: State, i: nat, j: nat)
    requires Inv(s) && i < |s.tasks| && s.tasks[i].Start? && j < |s.tasks|
    requires Holds(s.tasks[j]) && !s.tasks[j].Aborted?
    ensures CanGetThrough(s, i)
    decreases if s.tasks[j].Working? then 3
              else if s.tasks[j].DecLoaded? && s.tasks[j].cur != s.counter then 2
              else if s.tasks[j].DecRetry? then 1 else 0
  {
    assert TaskOk(s, s.tasks[j]);
    CountPositive(Holds, s.tasks, j);
    if s.tasks[j].DecLoaded? && s.tasks[j].cur == s.counter {
      GiveBack(s, i, j);
    } else {
      var a := if s.tasks[j].Working? then Finish(j) else if s.tasks[j].DecRetry? then Load(j) else Exchange(j);
      StepInv(s, a);
      HolderGivesBack(Step(s, a), i, j);
      OneStep(s, a, i);
    }
  }

  lemma {:induction false} CountLess(p: Pc -> bool, q: Pc -> bool, tasks: seq<Pc>) returns (j: nat)
    requires Count(p, tasks) < Count(q, tasks)
    ensures j < |tasks| && q(tasks[j]) && !p(tasks[j])
  {
    if q(tasks[0]) && !p(tasks[0]) {
      j := 0;
    } else {
      var k := CountLess(p, q, tasks[1..]);
      j := k + 1;
    }
  }

  /** In any reachable state, a task that has yet to start can get through, in some continuation, if and
      only if fewer tasks have aborted than there are slots. */
  lemma ThroughExactly(s: State, i: nat)
    requires Inv(s) && i < |s.tasks| && s.tasks[i].Start?
    ensures CanGetThrough(s, i) <==> Count(IsAborted, s.tasks) < s.max
  {
    CountImplies(IsAborted, Holds, s.tasks);
    if Count(IsAborted, s.tasks) == s.max {
      forall run | Legal(s, run) ensures !(i < |After(s, run).tasks| && After(s, run).tasks[i].Working?) {
        AbortedSlotsStayTaken(s, run);
        Safety(s, run);
        MaxStays(s, run);
        CountImplies(IsAborted, Holds, After(s, run).tasks);
      }
    } else if s.counter < s.max {
      FreeSlot(s, i);
    } else {
      var j := CountLess(IsAborted, Holds, s.tasks);
      HolderGivesBack(s, i, j);
    }
  }

  lemma {:induction false} MaxStays(s: State, run: seq<Action>)
    requires Legal(s, run)
    ensures After(s, run).max == s.max && |After(s, run).tasks| == |s.tasks|
    decreases |run|
  {
    if run != [] {
      MaxStays(Step(s, run[0]), run[1..]);
    }
  }

  /** A slot is lost as soon as a task with a slot aborts: this takes three steps. */
  lemma OneAborts(max: nat, n: nat)
    requires max >= 1 && n >= 1
    ensures var s, run := Initial(max, n), [Load(0), Exchange(0), Abort(0)];
            Legal(s, run) && After(s, run).tasks[0].Aborted? && After(s, run).counter == 1
  {
    var s := Initial(max, n);
    var t := Step(s, Load(0));
    var u := Step(t, Exchange(0));
    var run := [Load(0), Exchange(0), Abort(0)];
    assert run[1..] == [Exchange(0), Abort(0)] && run[1..][1..] == [Abort(0)] && run[1..][1..][1..] == [];
    assert Legal(Step(u, Abort(0)), []);
    assert Legal(u, [Abort(0)]) && Legal(t, run[1..]);
  }

  // ---------------------------------------------------------------- lock freedom

  /** A failed exchange means that another one succeeded since the value was observed. */
  lemma FailureMeansProgress(s: State, a: Action)
    requires Inv(s) && Enabled(s, a) && Fails(s, a)
    ensures s.tasks[a.task].at < s.exchanges
  {
    assert TaskOk(s, s.tasks[a.task]);
  }

  /** Exchanges of a run that succeeded, and that failed. */
  function Successes(s: State, run: seq<Action>): nat
    requires Legal(s, run)
    decreases |run|
  {
    if run == [] then 0
    else (if Succeeds(s, run[0]) then 1 else 0) + Successes(Step(s, run[0]), run[1..])
  }

  function Failures(s: State, run: seq<Action>): nat
    requires Legal(s, run)
    decreases |run|
  {
    if run == [] then 0
    else (if Fails(s, run[0]) then 1 else 0) + Failures(Step(s, run[0]), run[1..])
  }

  /** The task acts on a value that is out of date. */
  predicate Stale(exchanges: nat, pc: Pc) {
    (pc.IncLoaded? || pc.Working? || pc.DecLoaded?) && pc.at < exchanges
  }

  function StaleCount(s: State): nat {
    Count(pc => Stale(s.exchanges, pc), s.tasks)
  }

  /** A step that fails uses up one stale task; a step that succeeds makes all others stale at most. */
  lemma StaleStep(s: State, a: Action)
    requires Inv(s) && Enabled(s, a)
    ensures StaleCount(Step(s, a)) + (if Fails(s, a) then 1 else 0)
         <= StaleCount(s) + (if Succeeds(s, a) then |s.tasks| - 1 else 0)
  {
    var t := Step(s, a);
    if Succeeds(s, a) {
      CountPositive(pc => Stale(t.exchanges, pc), t.tasks, a.task);
    } else {
      if Fails(s, a) {
        FailureMeansProgress(s, a);
      }
      CountUpdate(pc => Stale(s.exchanges, pc), s.tasks, a.task, t.tasks[a.task]);
    }
  }

  lemma OneMoreTimes(n: nat, k: nat)
    ensures n * (k + 1) == n * k + n
  {
  }

  /** Lock freedom over whole runs: with n tasks, at most n - 1 failed exchanges for each successful
      one, besides those of tasks that were out of date at the start. */
  lemma {:induction false} FailuresBounded(s: State, run: seq<Action>)
    requires Inv(s) && Legal(s, run) && |s.tasks| >= 1
    ensures Failures(s, run) + StaleCount(After(s, run))
         <= StaleCount(s) + (|s.tasks| - 1) * Successes(s, run)
    decreases |run|
  {
    if run != [] {
      var t := Step(s, run[0]);
      StepInv(s, run[0]);
      StaleStep(s, run[0]);
      FailuresBounded(t, run[1..]);
      OneMoreTimes(|s.tasks| - 1, Successes(t, run[1..]));
    }
  }

  /** `exchanges` counts the successes. */
  lemma {:induction false} ExchangesCount(s: State, run: seq<Action>)
    requires Legal(s, run)
    ensures After(s, run).exchanges == s.exchanges + Successes(s, run)
    decreases |run|
  {
    if run != [] {
      ExchangesCount(Step(s, run[0]), run[1..]);
    }
  }
}
