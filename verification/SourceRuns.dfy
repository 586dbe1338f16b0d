/** Whole runs of the source task: what its trace tells about ids, the breaker and the streams. */
module SourceRuns {
  import opened Base
  import Framing
  import opened EndToEnd
  import opened SourceManager
  import Chain
  import ExactChain
  import Gelf
  import LengthPrefix

  // ---------------------------------------------------------------- runs

  /** A message arrives, at any time; a waiting message is handled; the task looks and finds that it needs
      no message; or it then pulls the source, by when further messages may have arrived. */
  datatype Step = Arrive(msg: Msg) | HandleOne | Look | PullOne(reply: Reply, up: Links)

  ghost predicate Enabled(cfg: Config, s: State, step: Step) {
    && s.ending == Running
    && match step
       case Arrive(_) => true
       case HandleOne => !s.looked && s.rx != []
       case Look => !s.looked && !Needs(cfg, s)
       case PullOne(_, _) => s.looked
  }

  ghost function Next(cfg: Config, s: State, step: Step): State
    requires Enabled(cfg, s, step)
  {
    match step
    case Arrive(m) => Emit(cfg, s, Arrived(m))
    case HandleOne => Emit(cfg, s, Handled(s.rx[0]))
    case Look => Emit(cfg, s, Looked)
    case PullOne(reply, up) => PullStep(cfg, s, reply, up)
  }

  ghost predicate Possible(cfg: Config, s: State, steps: seq<Step>)
    decreases |steps|
  {
    steps == [] || (Enabled(cfg, s, steps[0]) && Possible(cfg, Next(cfg, s, steps[0]), steps[1..]))
  }

  ghost function Run(cfg: Config, s: State, steps: seq<Step>): State
    requires Possible(cfg, s, steps)
    decreases |steps|
  {
    if steps == [] then s else Run(cfg, Next(cfg, s, steps[0]), steps[1..])
  }

  // ---------------------------------------------------------------- traces

  /** The state a trace leads to. */
  function Replay(cfg: Config, log: seq<Act>): State
    decreases |log|
  {
    if log == [] then Start(cfg) else Emit(cfg, Replay(cfg, Front(log)), Last(log))
  }

  /** What the task may do in a state. */
  predicate Allowed(cfg: Config, s: State, a: Act) {
    match a
    case Handled(m) => !s.looked && s.rx != [] && m == s.rx[0]
    case Looked => !s.looked && !Needs(cfg, s)
    case Pulled => s.looked
    case Datum(stream, call, _, _) => a == DatumAct(s, stream, call)
    case Sent(id, _, _, _) => id == s.id
    case _ => true
  }

  predicate Genuine(cfg: Config, log: seq<Act>)
    decreases |log|
  {
    log == [] || (Genuine(cfg, Front(log)) && Allowed(cfg, Replay(cfg, Front(log)), Last(log)))
  }

  predicate Traced(cfg: Config, s: State) {
    Genuine(cfg, s.log) && s == Replay(cfg, s.log)
  }

  lemma EmitTraced(cfg: Config, s: State, a: Act)
    requires Traced(cfg, s) && Allowed(cfg, s, a)
    ensures Traced(cfg, Emit(cfg, s, a))
  {
    LogTraced(cfg, s.log, a);
    EmitLog(cfg, s, a);
  }

  lemma LogTraced(cfg: Config, log: seq<Act>, a: Act)
    requires Genuine(cfg, log) && Allowed(cfg, Replay(cfg, log), a)
    ensures Genuine(cfg, log + [a]) && Replay(cfg, log + [a]) == Emit(cfg, Replay(cfg, log), a)
  {
    var all := log + [a];
    assert Front(all) == log && Last(all) == a;
  }

  lemma {:induction false} RouteTraced(cfg: Config, s: State, results: seq<Option<Bytes>>, original: u64, up: Links)
    requires Traced(cfg, s)
    ensures Traced(cfg, Route(cfg, s, results, original, up).0)
    decreases |results|
  {
    if results != [] {
      var a := SendAct(s, results[0].None?, PayloadOf(results[0], original), up);
      EmitTraced(cfg, s, a);
      RouteTraced(cfg, Emit(cfg, s, a), results[1..], original, up);
    }
  }

  lemma DeliverTraced(cfg: Config, t: State, stream: nat, results: seq<Option<Bytes>>, original: u64, emptyOk: bool,
                      up: Links)
    requires Traced(cfg, t)
    ensures Traced(cfg, Deliver(cfg, t, stream, results, original, emptyOk, up))
  {
    if results == [] {
      EmitTraced(cfg, t, EmptyEvent(original, stream));
      EmitTraced(cfg, Emit(cfg, t, EmptyEvent(original, stream)), Ended(Failed));
    } else {
      RouteTraced(cfg, t, results, original, up);
      EmitTraced(cfg, Route(cfg, t, results, original, up).0, SourceFail(original));
    }
  }

  lemma DatumTraced(cfg: Config, s: State, stream: nat, piece: Piece, up: Links)
    requires Traced(cfg, s)
    ensures Traced(cfg, DatumStep(cfg, s, stream, piece, up))
  {
    EmitTraced(cfg, s, DatumAct(s, stream, piece.call));
    DeliverTraced(cfg, Emit(cfg, s, DatumAct(s, stream, piece.call)), stream, Results(cfg, s, stream, piece.call),
                  s.id, piece.emptyOk, up);
  }

  lemma {:induction false} BatchTraced(cfg: Config, s: State, stream: nat, pieces: seq<Piece>, up: Links)
    requires Traced(cfg, s)
    ensures Traced(cfg, BatchStep(cfg, s, stream, pieces, up))
    decreases |pieces|
  {
    if pieces != [] && s.ending == Running {
      DatumTraced(cfg, s, stream, pieces[0], up);
      BatchTraced(cfg, DatumStep(cfg, s, stream, pieces[0], up), stream, pieces[1..], up);
    }
  }

  lemma PullTraced(cfg: Config, s: State, reply: Reply, up: Links)
    requires Traced(cfg, s) && s.looked
    ensures Traced(cfg, PullStep(cfg, s, reply, up))
  {
    EmitTraced(cfg, s, Pulled);
    PulledTraced(cfg, Emit(cfg, s, Pulled), s, reply, up);
  }

  lemma PulledTraced(cfg: Config, t: State, s: State, reply: Reply, up: Links)
    requires Traced(cfg, t) && t == Emit(cfg, s, Pulled)
    ensures Traced(cfg, PullStep(cfg, s, reply, up))
  {
    match reply {
      case StartStream(stream) => EmitTraced(cfg, t, Opened(stream));
      case EndStream(stream) => EmitTraced(cfg, t, Closed(stream));
      case Structured(value) => EmitTraced(cfg, t, SendAct(t, false, Event(value), up));
      case Data(stream, piece) => DatumTraced(cfg, t, stream, piece, up);
      case Batch(stream, pieces) => BatchTraced(cfg, t, stream, pieces, up);
      case Disconnected => EmitTraced(cfg, t, Ended(Done));
      case Connected =>
      case Idle =>
      case Failure =>
    }
  }

  lemma StepTraced(cfg: Config, s: State, step: Step)
    requires Traced(cfg, s) && Enabled(cfg, s, step)
    ensures Traced(cfg, Next(cfg, s, step))
  {
    match step {
      case Arrive(m) => EmitTraced(cfg, s, Arrived(m));
      case HandleOne => EmitTraced(cfg, s, Handled(s.rx[0]));
      case Look => EmitTraced(cfg, s, Looked);
      case PullOne(reply, up) => PullTraced(cfg, s, reply, up);
    }
  }

  /** Every run leaves a genuine trace that leads to its state. */
  lemma {:induction false} RunTraced(cfg: Config, s: State, steps: seq<Step>)
    requires Traced(cfg, s) && Possible(cfg, s, steps)
    ensures Traced(cfg, Run(cfg, s, steps))
    decreases |steps|
  {
    if steps != [] {
      StepTraced(cfg, s, steps[0]);
      RunTraced(cfg, Next(cfg, s, steps[0]), steps[1..]);
    }
  }

  lemma {:induction false} GenuinePrefix(cfg: Config, log: seq<Act>, k: nat)
    requires Genuine(cfg, log) && k <= |log|
    ensures Genuine(cfg, log[..k])
    decreases |log|
  {
    if k == |log| {
      assert log[..k] == log;
    } else {
      GenuinePrefix(cfg, Front(log), k);
      assert Front(log)[..k] == log[..k];
    }
  }

  /** Before each act of a run stands a genuine trace, and the act is allowed in the state it leads to. */
  lemma TraceAt(cfg: Config, steps: seq<Step>, k: nat)
    requires Possible(cfg, Start(cfg), steps) && k < |Run(cfg, Start(cfg), steps).log|
    ensures var log := Run(cfg, Start(cfg), steps).log;
            Genuine(cfg, log[..k]) && Allowed(cfg, Replay(cfg, log[..k]), log[k])
  {
    RunTraced(cfg, Start(cfg), steps);
    ActAt(cfg, Run(cfg, Start(cfg), steps).log, k);
  }

  lemma ActAt(cfg: Config, log: seq<Act>, k: nat)
    requires Genuine(cfg, log) && k < |log|
    ensures Genuine(cfg, log[..k]) && Allowed(cfg, Replay(cfg, log[..k]), log[k])
  {
    GenuinePrefix(cfg, log, k + 1);
    var upto := log[..k + 1];
    assert Front(upto) == log[..k] && Last(upto) == log[k];
  }

  /** One round of the task's loop is a run: some messages handled, then at most one pull. */
  lemma {:induction false} DrainIsRun(cfg: Config, s: State) returns (steps: seq<Step>)
    requires s.ending == Running && !s.looked
    ensures Possible(cfg, s, steps) && Run(cfg, s, steps) == Drain(cfg, s)
    ensures forall i | 0 <= i < |steps| :: steps[i].HandleOne?
    decreases |s.rx|
  {
    steps := [];
    if s.rx != [] {
      var t := Emit(cfg, s, Handled(s.rx[0]));
      if t.ending == Running {
        var more := DrainIsRun(cfg, t);
        steps := [HandleOne] + more;
        assert steps[1..] == more;
      } else {
        steps := [HandleOne];
        assert Possible(cfg, t, steps[1..]) && Run(cfg, t, steps[1..]) == t;
      }
    }
  }

  // ---------------------------------------------------------------- ids

  function CountSent(log: seq<Act>): nat
    decreases |log|
  {
    if log == [] then 0 else CountSent(Front(log)) + (if Last(log).Sent? then 1 else 0)
  }

  lemma {:induction false} NextIdCounts(cfg: Config, log: seq<Act>)
    ensures Replay(cfg, log).id == CountSent(log) % TWO_64
    decreases |log|
  {
    if log != [] {
      NextIdCounts(cfg, Front(log));
      NextIdStep(cfg, Replay(cfg, Front(log)), Last(log), CountSent(Front(log)));
      assert Replay(cfg, log) == Emit(cfg, Replay(cfg, Front(log)), Last(log));
    }
  }

  lemma NextIdStep(cfg: Config, s: State, a: Act, n: nat)
    requires s.id == n % TWO_64
    ensures Emit(cfg, s, a).id == (n + if a.Sent? then 1 else 0) % TWO_64
  {
    AnswerKeeps(cfg, s, a);
    ModNext(n);
  }

  lemma ModNext(n: nat)
    ensures (n % TWO_64 + 1) % TWO_64 == (n + 1) % TWO_64
  {
  }

  lemma AnswerKeeps(cfg: Config, s: State, a: Act)
    ensures Emit(cfg, s, a).id == if a.Sent? then (s.id + 1) % TWO_64 else s.id
    ensures !a.Opened? && !a.Closed? && !a.Datum? ==> Emit(cfg, s, a).streams == s.streams
  {
    if a.Handled? && s.rx != [] {
      MessageKeeps(s.(log := s.log + [a], rx := s.rx[1..]), a.msg);
    }
  }

  lemma MessageKeeps(s: State, m: Msg)
    ensures Answer(s, m).id == s.id && Answer(s, m).streams == s.streams
  {
  }

  /** Over any run the transmitted ids are 0, 1, 2, ... without a gap, to errors and to ports without a
      pipeline alike, wrapping at 2^64. */
  lemma IdsWithoutGap(cfg: Config, steps: seq<Step>, k: nat)
    requires Possible(cfg, Start(cfg), steps)
    requires k < |Run(cfg, Start(cfg), steps).log| && Run(cfg, Start(cfg), steps).log[k].Sent?
    ensures var log := Run(cfg, Start(cfg), steps).log; log[k].id == CountSent(log[..k]) % TWO_64
  {
    TraceAt(cfg, steps, k);
    NextIdCounts(cfg, Run(cfg, Start(cfg), steps).log[..k]);
  }

  /** The events that the results of a datum become: one each, in order, under consecutive ids. */
  function Block(s: State, results: seq<Option<Bytes>>, original: u64, up: Links): (acts: seq<Act>)
    ensures |acts| == |results|
  {
    seq(|results|, k requires 0 <= k < |results| => EventOf(s, (s.id + k) % TWO_64, results[k], original, up))
  }

  function EventOf(s: State, id: u64, result: Option<Bytes>, original: u64, up: Links): Act {
    Sent(id, result.None?, PayloadOf(result, original),
         SomeFails(if result.None? then s.pipesErr else s.pipesOut, id, up))
  }

  predicate SomeFailed(acts: seq<Act>) {
    exists i | 0 <= i < |acts| :: acts[i].Sent? && acts[i].failed
  }

  lemma ModShift(a: nat, k: nat)
    ensures ((a + 1) % TWO_64 + k) % TWO_64 == (a + (k + 1)) % TWO_64
  {
  }

  lemma BlockStep(s: State, t: State, results: seq<Option<Bytes>>, original: u64, up: Links)
    requires results != []
    requires t.id == (s.id + 1) % TWO_64 && t.pipesOut == s.pipesOut && t.pipesErr == s.pipesErr
    ensures Block(s, results, original, up)
         == [EventOf(s, s.id, results[0], original, up)] + Block(t, results[1..], original, up)
  {
    var rest := results[1..];
    forall k | 0 <= k < |rest|
      ensures Block(s, results, original, up)[1..][k] == Block(t, rest, original, up)[k]
    {
      ModShift(s.id, k);
      assert rest[k] == results[k + 1];
    }
    assert Block(s, results, original, up)[1..] == Block(t, rest, original, up);
    assert s.id % TWO_64 == s.id;
  }

  lemma BlockSame(s: State, t: State, results: seq<Option<Bytes>>, original: u64, up: Links)
    requires t.id == s.id && t.pipesOut == s.pipesOut && t.pipesErr == s.pipesErr
    ensures Block(s, results, original, up) == Block(t, results, original, up)
  {
  }

  lemma SomeFailedCons(a: Act, acts: seq<Act>)
    ensures SomeFailed([a] + acts) == ((a.Sent? && a.failed) || SomeFailed(acts))
  {
    assert ([a] + acts)[0] == a;
    assert forall i | 0 <= i < |acts| :: ([a] + acts)[i + 1] == acts[i];
    if SomeFailed(acts) {
      var i :| 0 <= i < |acts| && acts[i].Sent? && acts[i].failed;
      var i' := i + 1;
      assert ([a] + acts)[i'] == acts[i];
    }
  }

  lemma {:induction false} RouteSends(cfg: Config, s: State, results: seq<Option<Bytes>>, original: u64, up: Links)
    ensures Route(cfg, s, results, original, up)
         == (s.(id := (s.id + |results|) % TWO_64, log := s.log + Block(s, results, original, up)),
             SomeFailed(Block(s, results, original, up)))
    decreases |results|
  {
    if results == [] {
      assert s.log + Block(s, results, original, up) == s.log;
    } else {
      var a := SendAct(s, results[0].None?, PayloadOf(results[0], original), up);
      var t := Emit(cfg, s, a);
      var rest := Block(t, results[1..], original, up);
      RouteSends(cfg, t, results[1..], original, up);
      BlockStep(s, t, results, original, up);
      ModShift(s.id, |results| - 1);
      SomeFailedCons(a, rest);
      Assoc(s.log, [a], rest);
    }
  }

  /** What follows the events of a datum. */
  function Tail(block: seq<Act>, original: u64, stream: nat, emptyOk: bool): seq<Act> {
    if block == [] then
      if emptyOk then [EmptyEvent(original, stream)] else [EmptyEvent(original, stream), Ended(Failed)]
    else if SomeFailed(block) then [SourceFail(original)] else []
  }

  lemma DeliverBlock(cfg: Config, s: State, stream: nat, results: seq<Option<Bytes>>, original: u64, emptyOk: bool,
                     up: Links)
    ensures var block := Block(s, results, original, up);
            var t := Deliver(cfg, s, stream, results, original, emptyOk, up);
            && t.log == s.log + block + Tail(block, original, stream, emptyOk)
            && t.id == (s.id + |results|) % TWO_64
            && t.pipesOut == s.pipesOut && t.pipesErr == s.pipesErr && t.triggered == s.triggered && t.rx == s.rx
  {
    var block := Block(s, results, original, up);
    if results == [] {
      assert (s.id + 0) % TWO_64 == s.id;
      assert s.log + block == s.log;
      var b := EmptyEvent(original, stream);
      assert s.log + [b] + [Ended(Failed)] == s.log + [b, Ended(Failed)];
    } else {
      RouteSends(cfg, s, results, original, up);
      var log := s.log + block;
      assert log + [] == log;
    }
  }

  /** What a datum leaves in the trace: its results under consecutive ids that start at the id it was
      pulled under; `fail` for that id exactly when a send failed; the empty-event call exactly when it
      made no event. */
  lemma DatumBlock(cfg: Config, s: State, stream: nat, piece: Piece, up: Links)
    ensures var results := Results(cfg, s, stream, piece.call);
            var block := Block(s, results, s.id, up);
            var t := DatumStep(cfg, s, stream, piece, up);
            && t.log == s.log + [DatumAct(s, stream, piece.call)] + block + Tail(block, s.id, stream, piece.emptyOk)
            && t.id == (s.id + |results|) % TWO_64
            && t.pipesOut == s.pipesOut && t.pipesErr == s.pipesErr && t.triggered == s.triggered && t.rx == s.rx
  {
    var results := Results(cfg, s, stream, piece.call);
    var t := Emit(cfg, s, DatumAct(s, stream, piece.call));
    DatumKeeps(cfg, s, DatumAct(s, stream, piece.call));
    BlockSame(s, t, results, s.id, up);
    DeliverBlock(cfg, t, stream, results, s.id, piece.emptyOk, up);
  }

  lemma DatumKeeps(cfg: Config, s: State, a: Act)
    requires a.Datum?
    ensures var t := Emit(cfg, s, a); t == s.(log := s.log + [a], streams := t.streams)
  {
  }

  /** The acts are the events of these results, one each, in order, under consecutive ids. */
  predicate Sends(acts: seq<Act>, s: State, results: seq<Option<Bytes>>) {
    |acts| == |results| && forall j | 0 <= j < |acts| :: IsEventOf(acts[j], (s.id + j) % TWO_64, results[j], s.id)
  }

  predicate IsEventOf(a: Act, id: u64, result: Option<Bytes>, original: u64) {
    a.Sent? && a.id == id && a.toErr == result.None? && a.payload == PayloadOf(result, original)
  }

  /** What the datum at `k` was turned into. */
  function ResultsAt(cfg: Config, log: seq<Act>, k: nat): seq<Option<Bytes>>
    requires k < |log| && log[k].Datum?
  {
    Results(cfg, Replay(cfg, log[..k]), log[k].stream, log[k].call)
  }

  /** Where its events end. */
  function EndOf(cfg: Config, log: seq<Act>, k: nat): nat
    requires k < |log| && log[k].Datum?
  {
    k + 1 + |ResultsAt(cfg, log, k)|
  }

  /** A datum pulled in state `s` has been followed by its events, and they by a call of `fail` for the id
      it was pulled under if and only if one of them could not be sent; or, if it made none, by the
      empty-event call. `next` is what comes after the events. */
  predicate AnsweredBy(s: State, stream: nat, results: seq<Option<Bytes>>, events: seq<Act>, next: seq<Act>) {
    && Sends(events, s, results)
    && (SomeFailed(events) <==> next != [] && next[0] == SourceFail(s.id))
    && (events == [] ==> next != [] && next[0] == EmptyEvent(s.id, stream))
  }

  predicate Answered(cfg: Config, log: seq<Act>, k: nat)
    requires k < |log| && log[k].Datum?
  {
    var s, end := Replay(cfg, log[..k]), EndOf(cfg, log, k);
    && log[k].original == s.id && end <= |log|
    && AnsweredBy(s, log[k].stream, ResultsAt(cfg, log, k), log[k + 1..end], log[end..])
  }

  ghost predicate AllAnswered(cfg: Config, log: seq<Act>) {
    && (forall k: nat | k < |log| && log[k].Datum? :: Answered(cfg, log, k))
    && (forall i: nat | i < |log| && log[i].SourceFail? :: ByDatum(cfg, log, i))
  }

  /** A call of `fail` belongs to a datum. */
  ghost predicate ByDatum(cfg: Config, log: seq<Act>, i: nat) {
    exists k: nat :: k < i && k < |log| && log[k].Datum? && EndOf(cfg, log, k) == i
  }

  lemma KeepsAnswer(cfg: Config, log: seq<Act>, more: seq<Act>, k: nat)
    requires k < |log| && log[k].Datum? && Answered(cfg, log, k) && (more == [] || !more[0].SourceFail?)
    ensures Answered(cfg, log + more, k)
  {
    var all, end := log + more, EndOf(cfg, log, k);
    assert all[..k] == log[..k] && all[k] == log[k];
    assert EndOf(cfg, all, k) == end;
    assert all[k + 1..end] == log[k + 1..end];
    assert all[end..] == log[end..] + more;
    MoreFollows(Replay(cfg, log[..k]), log[k].stream, ResultsAt(cfg, log, k), log[k + 1..end], log[end..], more);
  }

  lemma MoreFollows(s: State, stream: nat, results: seq<Option<Bytes>>, events: seq<Act>, next: seq<Act>,
                    more: seq<Act>)
    requires AnsweredBy(s, stream, results, events, next) && (more == [] || !more[0].SourceFail?)
    ensures AnsweredBy(s, stream, results, events, next + more)
  {
    assert next == [] ==> next + more == more;
  }

  lemma KeepsByDatum(cfg: Config, log: seq<Act>, more: seq<Act>, i: nat)
    requires i < |log| && ByDatum(cfg, log, i)
    ensures ByDatum(cfg, log + more, i)
  {
    var k: nat :| k < i && k < |log| && log[k].Datum? && EndOf(cfg, log, k) == i;
    assert (log + more)[..k] == log[..k] && (log + more)[k] == log[k];
    assert EndOf(cfg, log + more, k) == i;
  }

  /** Acts that neither are data nor belong to one. */
  lemma OtherActs(cfg: Config, log: seq<Act>, more: seq<Act>)
    requires AllAnswered(cfg, log) && forall i | 0 <= i < |more| :: !more[i].Datum? && !more[i].SourceFail?
    ensures AllAnswered(cfg, log + more)
  {
    var all := log + more;
    forall k: nat | k < |all| && all[k].Datum? ensures Answered(cfg, all, k) {
      KeepsAnswer(cfg, log, more, k);
    }
    forall i: nat | i < |all| && all[i].SourceFail? ensures ByDatum(cfg, all, i) {
      KeepsByDatum(cfg, log, more, i);
    }
  }

  lemma EmitAnswered(cfg: Config, s: State, a: Act)
    requires AllAnswered(cfg, s.log) && !a.Datum? && !a.SourceFail?
    ensures AllAnswered(cfg, Emit(cfg, s, a).log)
  {
    OtherActs(cfg, s.log, [a]);
    EmitLog(cfg, s, a);
  }

  lemma EmitLog(cfg: Config, s: State, a: Act)
    ensures Emit(cfg, s, a).log == s.log + [a]
  {
  }

  /** A datum and what follows it. */
  lemma NewDatum(cfg: Config, s: State, datum: Act, block: seq<Act>, emptyOk: bool)
    requires Traced(cfg, s) && AllAnswered(cfg, s.log) && datum.Datum? && datum.original == s.id
    requires Sends(block, s, Results(cfg, s, datum.stream, datum.call))
    ensures AllAnswered(cfg, s.log + ([datum] + (block + Tail(block, s.id, datum.stream, emptyOk))))
  {
    var tail, k := Tail(block, s.id, datum.stream, emptyOk), |s.log|;
    var more := [datum] + (block + tail);
    var all, end := s.log + more, k + 1 + |block|;
    DatumPlaces(s.log, datum, block, tail);
    DatumKinds(s.log, datum, block, s.id, emptyOk);
    TailMeans(s, Results(cfg, s, datum.stream, datum.call), block, datum.stream, emptyOk);
    NewAnswer(cfg, s, datum, block, tail);
    forall j: nat | j < |all| && all[j].Datum? ensures Answered(cfg, all, j) {
      if j < k {
        KeepsAnswer(cfg, s.log, more, j);
      }
    }
    forall i: nat | i < |all| && all[i].SourceFail? ensures ByDatum(cfg, all, i) {
      if i < k {
        KeepsByDatum(cfg, s.log, more, i);
      } else {
        assert all[k].Datum? && EndOf(cfg, all, k) == i;
      }
    }
  }

  /** Behind a datum there is no other, and a call of `fail` at most right after the events. */
  lemma DatumKinds(log: seq<Act>, datum: Act, block: seq<Act>, original: u64, emptyOk: bool)
    requires datum.Datum? && forall i | 0 <= i < |block| :: block[i].Sent?
    ensures var all := log + ([datum] + (block + Tail(block, original, datum.stream, emptyOk)));
            forall j | |log| < j < |all| :: !all[j].Datum? && (all[j].SourceFail? ==> j == |log| + 1 + |block|)
  {
    DatumPlaces(log, datum, block, Tail(block, original, datum.stream, emptyOk));
  }

  lemma DatumPlaces(log: seq<Act>, datum: Act, block: seq<Act>, tail: seq<Act>)
    ensures var all, k := log + ([datum] + (block + tail)), |log|;
            var end := k + 1 + |block|;
            && |all| == end + |tail| && all[..k] == log && all[k] == datum && all[k + 1..end] == block
            && all[end..] == tail
            && (forall j | k < j < |all| :: all[j] == if j < end then block[j - k - 1] else tail[j - end])
  {
    Halves(log, [datum] + (block + tail));
  }

  lemma TailMeans(s: State, results: seq<Option<Bytes>>, block: seq<Act>, stream: nat, emptyOk: bool)
    requires Sends(block, s, results)
    ensures AnsweredBy(s, stream, results, block, Tail(block, s.id, stream, emptyOk))
  {
  }

  lemma NewAnswer(cfg: Config, s: State, datum: Act, block: seq<Act>, tail: seq<Act>)
    requires s == Replay(cfg, s.log) && datum.Datum? && datum.original == s.id
    requires AnsweredBy(s, datum.stream, Results(cfg, s, datum.stream, datum.call), block, tail)
    ensures var all := s.log + ([datum] + (block + tail));
            |all| > |s.log| && all[|s.log|] == datum && Answered(cfg, all, |s.log|)
  {
    var all, k := s.log + ([datum] + (block + tail)), |s.log|;
    DatumPlaces(s.log, datum, block, tail);
    Placed(cfg, all, k, s, block, tail);
  }

  lemma Placed(cfg: Config, log: seq<Act>, k: nat, s: State, events: seq<Act>, next: seq<Act>)
    requires k < |log| && log[k].Datum? && log[k].original == s.id && Replay(cfg, log[..k]) == s
    requires k + 1 + |events| <= |log| && log[k + 1..k + 1 + |events|] == events && log[k + 1 + |events|..] == next
    requires AnsweredBy(s, log[k].stream, ResultsAt(cfg, log, k), events, next)
    ensures Answered(cfg, log, k)
  {
    assert EndOf(cfg, log, k) == k + 1 + |events|;
    assert log[k + 1..EndOf(cfg, log, k)] == events && log[EndOf(cfg, log, k)..] == next;
  }

  lemma BlockSends(s: State, results: seq<Option<Bytes>>, up: Links)
    ensures Sends(Block(s, results, s.id, up), s, results)
  {
  }

  lemma DatumAnswered(cfg: Config, s: State, stream: nat, piece: Piece, up: Links)
    requires Traced(cfg, s) && AllAnswered(cfg, s.log)
    ensures AllAnswered(cfg, DatumStep(cfg, s, stream, piece, up).log)
  {
    var results, datum := Results(cfg, s, stream, piece.call), DatumAct(s, stream, piece.call);
    var block := Block(s, results, s.id, up);
    var tail := Tail(block, s.id, stream, piece.emptyOk);
    DatumBlock(cfg, s, stream, piece, up);
    Assoc(s.log + [datum], block, tail);
    Assoc(s.log, [datum], block + tail);
    BlockSends(s, results, up);
    NewDatum(cfg, s, datum, block, piece.emptyOk);
  }

  lemma {:induction false} BatchAnswered(cfg: Config, s: State, stream: nat, pieces: seq<Piece>, up: Links)
    requires Traced(cfg, s) && AllAnswered(cfg, s.log)
    ensures AllAnswered(cfg, BatchStep(cfg, s, stream, pieces, up).log)
    decreases |pieces|
  {
    if pieces != [] && s.ending == Running {
      DatumTraced(cfg, s, stream, pieces[0], up);
      DatumAnswered(cfg, s, stream, pieces[0], up);
      BatchAnswered(cfg, DatumStep(cfg, s, stream, pieces[0], up), stream, pieces[1..], up);
    }
  }

  lemma PullAnswered(cfg: Config, s: State, reply: Reply, up: Links)
    requires Traced(cfg, s) && s.looked && AllAnswered(cfg, s.log)
    ensures AllAnswered(cfg, PullStep(cfg, s, reply, up).log)
  {
    var t := Emit(cfg, s, Pulled);
    EmitTraced(cfg, s, Pulled);
    EmitAnswered(cfg, s, Pulled);
    match reply {
      case Data(stream, piece) => DatumAnswered(cfg, t, stream, piece, up);
      case Batch(stream, pieces) => BatchAnswered(cfg, t, stream, pieces, up);
      case _ => PlainAnswered(cfg, t, s, reply, up);
    }
  }

  lemma PlainAnswered(cfg: Config, t: State, s: State, reply: Reply, up: Links)
    requires AllAnswered(cfg, t.log) && t == Emit(cfg, s, Pulled) && !reply.Data? && !reply.Batch?
    ensures AllAnswered(cfg, PullStep(cfg, s, reply, up).log)
  {
    match reply {
      case StartStream(stream) => EmitAnswered(cfg, t, Opened(stream));
      case EndStream(stream) => EmitAnswered(cfg, t, Closed(stream));
      case Structured(value) => EmitAnswered(cfg, t, SendAct(t, false, Event(value), up));
      case Disconnected => EmitAnswered(cfg, t, Ended(Done));
      case _ =>
    }
  }

  lemma {:induction false} RunAnswered(cfg: Config, s: State, steps: seq<Step>)
    requires Traced(cfg, s) && AllAnswered(cfg, s.log) && Possible(cfg, s, steps)
    ensures AllAnswered(cfg, Run(cfg, s, steps).log)
    decreases |steps|
  {
    if steps != [] {
      StepTraced(cfg, s, steps[0]);
      match steps[0] {
        case Arrive(m) => EmitAnswered(cfg, s, Arrived(m));
        case HandleOne => EmitAnswered(cfg, s, Handled(s.rx[0]));
        case Look => EmitAnswered(cfg, s, Looked);
        case PullOne(reply, up) => PullAnswered(cfg, s, reply, up);
      }
      RunAnswered(cfg, Next(cfg, s, steps[0]), steps[1..]);
    }
  }

  /** In any run, batches included: `fail` is called right after the events of a datum, for the id it was
      pulled under, if and only if one of them could not be sent; and it is called nowhere else, so a
      ready-made event that cannot be sent is lost without it. */
  lemma FailExactly(cfg: Config, steps: seq<Step>)
    requires Possible(cfg, Start(cfg), steps)
    ensures var log := Run(cfg, Start(cfg), steps).log;
            && (forall k: nat | k < |log| && log[k].Datum? :: Answered(cfg, log, k))
            && (forall i: nat | i < |log| && log[i].SourceFail? :: ByDatum(cfg, log, i))
  {
    RunAnswered(cfg, Start(cfg), steps);
  }

  /** Such an event: it cannot be sent to some pipeline, and that is all that happens. */
  lemma StructuredLost(cfg: Config, s: State, value: Bytes, up: Links)
    requires SomeFails(s.pipesOut, s.id, up)
    ensures PullStep(cfg, s, Structured(value), up).log == s.log + [Pulled, Sent(s.id, false, Event(value), true)]
  {
    var t := Emit(cfg, s, Pulled);
    assert s.log + [Pulled] + [SendAct(t, false, Event(value), up)]
        == s.log + [Pulled, SendAct(t, false, Event(value), up)];
  }

  // ---------------------------------------------------------------- the circuit breaker

  /** The last breaker message handled was Close. */
  predicate BreakerClosed(log: seq<Act>)
    decreases |log|
  {
    log != [] &&
    match Last(log)
    case Handled(CbClose) => true
    case Handled(CbOpen) => false
    case _ => BreakerClosed(Front(log))
  }

  /** The pipelines connected to one of the two ports, going by the messages handled. */
  function Linked(log: seq<Act>, port: string): seq<Pipe>
    decreases |log|
  {
    if log == [] then []
    else
      var before := Linked(Front(log), port);
      match Last(log)
      case Handled(Connect(p, pipes, reach)) => if p == port then before + Reached(pipes, reach) else before
      case Handled(Disconnect(id, told, _)) => if told then Retain(before, id) else before
      case _ => before
  }

  function ArrivedIn(log: seq<Act>): seq<Msg>
    decreases |log|
  {
    if log == [] then []
    else if Last(log).Arrived? then ArrivedIn(Front(log)) + [Last(log).msg] else ArrivedIn(Front(log))
  }

  function HandledIn(log: seq<Act>): seq<Msg>
    decreases |log|
  {
    if log == [] then []
    else if Last(log).Handled? then HandledIn(Front(log)) + [Last(log).msg] else HandledIn(Front(log))
  }

  /** The messages that had arrived when the task last looked. */
  function SeenIn(log: seq<Act>): seq<Msg>
    decreases |log|
  {
    if log == [] then []
    else if Last(log).Looked? then ArrivedIn(Front(log)) else SeenIn(Front(log))
  }

  /** What the task knows between looking and pulling. */
  predicate SawNothing(cfg: Config, s: State, log: seq<Act>) {
    s.looked ==>
      !s.triggered && s.pipesOut != [] && (cfg.errRequired ==> s.pipesErr != []) && HandledIn(log) == SeenIn(log)
  }

  lemma {:induction false} LookState(cfg: Config, log: seq<Act>)
    requires Genuine(cfg, log)
    ensures SawNothing(cfg, Replay(cfg, log), log)
    decreases |log|
  {
    if log != [] {
      LookState(cfg, Front(log));
      LinksState(cfg, Front(log));
      LookStep(cfg, Replay(cfg, Front(log)), log);
    }
  }

  lemma LookStep(cfg: Config, s: State, log: seq<Act>)
    requires log != [] && Allowed(cfg, s, Last(log)) && SawNothing(cfg, s, Front(log))
    requires ArrivedIn(Front(log)) == HandledIn(Front(log)) + s.rx
    ensures SawNothing(cfg, Emit(cfg, s, Last(log)), log)
  {
    match Last(log) {
      case Handled(m) => AnswerLinks(s.(log := s.log + [Last(log)], rx := s.rx[1..]), m);
      case Looked => assert HandledIn(Front(log)) + [] == HandledIn(Front(log));
      case _ =>
    }
  }

  lemma {:induction false} RetainNone(ps: seq<Pipe>, id: string)
    requires !Lists(ps, id)
    ensures Retain(ps, id) == ps
  {
    if ps != [] {
      assert ps[0].id != id;
      assert forall i | 0 <= i < |ps[1..]| :: ps[1..][i] == ps[i + 1];
      RetainNone(ps[1..], id);
    }
  }

  lemma AnswerLinks(s: State, m: Msg)
    ensures var t := Answer(s, m);
            && t.triggered == (if m.CbClose? then true else if m.CbOpen? then false else s.triggered)
            && t.pipesOut == (match m
                              case Connect(p, pipes, reach) =>
                                if p == "out" then s.pipesOut + Reached(pipes, reach) else s.pipesOut
                              case Disconnect(id, told, _) => if told then Retain(s.pipesOut, id) else s.pipesOut
                              case _ => s.pipesOut)
            && t.pipesErr == (match m
                              case Connect(p, pipes, reach) =>
                                if p == "err" then s.pipesErr + Reached(pipes, reach) else s.pipesErr
                              case Disconnect(id, told, _) => if told then Retain(s.pipesErr, id) else s.pipesErr
                              case _ => s.pipesErr)
            && t.rx == s.rx && t.log == s.log && t.looked == s.looked
  {
    match m {
      case Connect(p, pipes, reach) =>
        LowerPorts();
        assert s.pipesOut + [] == s.pipesOut && s.pipesErr + [] == s.pipesErr;
      case Disconnect(id, told, _) =>
        if !Lists(s.pipesOut, id) && !Lists(s.pipesErr, id) {
          RetainNone(s.pipesOut, id);
          RetainNone(s.pipesErr, id);
        }
      case _ =>
    }
  }

  lemma LowerPorts()
    ensures Lower("out") != "metrics" && Lower("err") != "metrics"
  {
    assert |Lower("out")| == 3 && |Lower("err")| == 3;
  }

  lemma {:induction false} LinksState(cfg: Config, log: seq<Act>)
    requires Genuine(cfg, log)
    ensures var s := Replay(cfg, log);
            && s.triggered == BreakerClosed(log)
            && s.pipesOut == Linked(log, "out") && s.pipesErr == Linked(log, "err")
            && ArrivedIn(log) == HandledIn(log) + s.rx
    decreases |log|
  {
    if log != [] {
      LinksState(cfg, Front(log));
      LinksStep(cfg, Replay(cfg, Front(log)), log);
    }
  }

  lemma LinksStep(cfg: Config, s: State, log: seq<Act>)
    requires log != [] && Allowed(cfg, s, Last(log))
    requires s.triggered == BreakerClosed(Front(log))
    requires s.pipesOut == Linked(Front(log), "out") && s.pipesErr == Linked(Front(log), "err")
    requires ArrivedIn(Front(log)) == HandledIn(Front(log)) + s.rx
    ensures var t := Emit(cfg, s, Last(log));
            && t.triggered == BreakerClosed(log)
            && t.pipesOut == Linked(log, "out") && t.pipesErr == Linked(log, "err")
            && ArrivedIn(log) == HandledIn(log) + t.rx
  {
    match Last(log) {
      case Handled(m) =>
        AnswerLinks(s.(log := s.log + [Last(log)], rx := s.rx[1..]), m);
        assert s.rx == [m] + s.rx[1..];
        Assoc(HandledIn(Front(log)), [m], s.rx[1..]);
      case Arrived(m) => Assoc(HandledIn(Front(log)), s.rx, [m]);
      case _ =>
    }
  }

  /** In no run is the source pulled between the handling of a Close and the next Open, nor without a
      pipeline on its output, nor without one on its error port where that is required, nor before every
      message is handled that had arrived when the task looked. */
  lemma PulledOnlyWhenOpen(cfg: Config, steps: seq<Step>, k: nat)
    requires Possible(cfg, Start(cfg), steps)
    requires k < |Run(cfg, Start(cfg), steps).log| && Run(cfg, Start(cfg), steps).log[k] == Pulled
    ensures var before := Run(cfg, Start(cfg), steps).log[..k];
            && !BreakerClosed(before)
            && Linked(before, "out") != [] && (cfg.errRequired ==> Linked(before, "err") != [])
            && HandledIn(before) == SeenIn(before)
  {
    TraceAt(cfg, steps, k);
    var before := Run(cfg, Start(cfg), steps).log[..k];
    LinksState(cfg, before);
    LookState(cfg, before);
  }

  // ---------------------------------------------------------------- streams

  predicate IsOpen(log: seq<Act>, stream: nat)
    decreases |log|
  {
    if log == [] then stream == 0
    else match Last(log)
    case Opened(other) => other == stream || IsOpen(Front(log), stream)
    case Closed(other) => other != stream && IsOpen(Front(log), stream)
    case _ => IsOpen(Front(log), stream)
  }

  /** The pieces and ingest times of one stream since it was last started. */
  function Since(log: seq<Act>, stream: nat): seq<Call>
    decreases |log|
  {
    if log == [] then []
    else
      var before := Since(Front(log), stream);
      match Last(log)
      case Opened(other) => if other == stream then [] else before
      case Datum(other, call, _, _) => if other == stream then before + [call] else before
      case _ => before
  }

  /** The messages that the preprocessors made of them. */
  function Produced(log: seq<Act>, stream: nat): seq<Bytes>
    decreases |log|
  {
    if log == [] then []
    else
      var before := Produced(Front(log), stream);
      match Last(log)
      case Opened(other) => if other == stream then [] else before
      case Datum(other, _, _, out) => if other == stream && out.Some? then before + out.value else before
      case _ => before
  }

  lemma {:induction false} ReceiveSnoc(stages: seq<Chain.Stage>, calls: seq<Call>, c: Call)
    ensures var before := ReceiveAll(stages, calls);
            var o := Chain.Process(before.stages, c.ns, c.data);
            ReceiveAll(stages, calls + [c])
            == Received(o.after, before.ok && o.result.Ok?, before.out + if o.result.Ok? then o.result.value else [])
    decreases |calls|
  {
    var all := calls + [c];
    if calls == [] {
      assert all[1..] == [];
      var o := Chain.Process(stages, c.ns, c.data);
      var out := if o.result.Ok? then o.result.value else [];
      assert out + [] == out && [] + out == out;
    } else {
      assert all[0] == calls[0] && all[1..] == calls[1..] + [c];
      var first := Chain.Process(stages, calls[0].ns, calls[0].data);
      ReceiveSnoc(first.after, calls[1..], c);
      var before := ReceiveAll(first.after, calls[1..]);
      var o := Chain.Process(before.stages, c.ns, c.data);
      Assoc(if first.result.Ok? then first.result.value else [], before.out,
            if o.result.Ok? then o.result.value else []);
    }
  }

  /** The preprocessors of a stream are where running that stream alone, from a fresh template, would have
      left them. */
  ghost predicate RanAlone(cfg: Config, s: State, log: seq<Act>, stream: nat) {
    && (stream in s.streams <==> IsOpen(log, stream))
    && (IsOpen(log, stream) ==>
          var alone := ReceiveAll(cfg.template, Since(log, stream));
          s.streams[stream] == alone.stages && Produced(log, stream) == alone.out)
  }

  lemma {:induction false} StreamState(cfg: Config, log: seq<Act>, stream: nat)
    requires Genuine(cfg, log)
    ensures RanAlone(cfg, Replay(cfg, log), log, stream)
    decreases |log|
  {
    if log != [] {
      StreamState(cfg, Front(log), stream);
      StreamStep(cfg, Replay(cfg, Front(log)), log, stream);
    }
  }

  lemma StreamStep(cfg: Config, s: State, log: seq<Act>, stream: nat)
    requires log != [] && Allowed(cfg, s, Last(log)) && RanAlone(cfg, s, Front(log), stream)
    ensures RanAlone(cfg, Emit(cfg, s, Last(log)), log, stream)
  {
    match Last(log) {
      case Datum(other, call, original, out) =>
        if other == stream && IsOpen(Front(log), stream) {
          ReceiveSnoc(cfg.template, Since(Front(log), stream), call);
        }
      case Opened(_) =>
      case Closed(_) =>
      case _ => AnswerKeepsStreams(cfg, s, Last(log));
    }
  }

  lemma AnswerKeepsStreams(cfg: Config, s: State, a: Act)
    requires !a.Opened? && !a.Closed? && !a.Datum?
    ensures Emit(cfg, s, a).streams == s.streams
  {
    AnswerKeeps(cfg, s, a);
  }

  /** In any run what the preprocessors make of a piece of data of a stream depends only on that stream's
      own pieces and ingest times since its last start: it is what a fresh chain, fed these alone, makes
      of it. Data of a stream that is not open is an error. */
  lemma StreamIsolation(cfg: Config, steps: seq<Step>, k: nat)
    requires Possible(cfg, Start(cfg), steps)
    requires k < |Run(cfg, Start(cfg), steps).log| && Run(cfg, Start(cfg), steps).log[k].Datum?
    ensures var log := Run(cfg, Start(cfg), steps).log;
            var stream, call := log[k].stream, log[k].call;
            var alone := ReceiveAll(cfg.template, Since(log[..k], stream));
            var o := Chain.Process(alone.stages, call.ns, call.data);
            log[k].out == if IsOpen(log[..k], stream) && o.result.Ok? then Some(o.result.value) else None
  {
    TraceAt(cfg, steps, k);
    var log := Run(cfg, Start(cfg), steps).log;
    StreamState(cfg, log[..k], log[k].stream);
  }

  /** Senders on any number of streams, their bytes interleaved and cut up in any way: an open stream that
      has received all of what one sender sent has produced exactly those of that sender's messages that
      have one chunk or are in time; all that were accepted and are not empty, if and only if every message
      of several chunks is in time. */
  lemma InterleavedExactly(cfg: Config, steps: seq<Step>, stream: nat, id: u64, chunkSize: Chain.ChunkSize,
                           sent: seq<Call>)
    requires cfg.template == Receiver(Framing.INITIAL, Gelf.INITIAL)
    requires Possible(cfg, Start(cfg), steps) && IsOpen(Run(cfg, Start(cfg), steps).log, stream)
    requires chunkSize < TWO_64 && |sent| <= TWO_64
    requires Flatten(Datas(Since(Run(cfg, Start(cfg), steps).log, stream))) == SendAll(Sender(id, chunkSize), sent)
    ensures var log, accepted := Run(cfg, Start(cfg), steps).log, Accepted(chunkSize, sent);
            && Parsable(LengthPrefix.FeedAll(Framing.INITIAL, Datas(Since(log, stream))).out)
            && var evs := Arrivals(Framing.INITIAL, Since(log, stream));
            && |evs| == |AllSegments(id, chunkSize, accepted)|
            && Produced(log, stream) == ExactChain.Kept(evs, id, chunkSize, accepted, 0)
            && (Produced(log, stream) == NonEmpty(Datas(accepted)) <==>
                  ExactChain.AllInTime(evs, id, chunkSize, accepted, 0))
  {
    RunTraced(cfg, Start(cfg), steps);
    var log := Run(cfg, Start(cfg), steps).log;
    StreamState(cfg, log, stream);
    ExactChain.ChainExactly(id, chunkSize, sent, Since(log, stream));
  }
}
