/** The task that drives a source: its message loop, circuit breaker, event ids and streams. */
module SourceManager {
  import opened Base
  import opened EndToEnd
  import Chain

  // ---------------------------------------------------------------- what the task works with

  datatype Pipe = Pipe(id: string, addr: nat, hasPort: bool)

  /** `reach` counts the pipelines that can be told of the connection before one cannot. */
  datatype Msg =
    | Connect(port: string, pipes: seq<Pipe>, reach: nat)
    | Disconnect(id: string, told: bool, listening: bool)
    | CbFail(earliest: Option<u64>)
    | CbAck(latest: Option<u64>)
    | CbClose
    | CbOpen
    | CbNone
    | Response

  datatype Decoded = Skip | Value(value: Bytes) | Bad

  datatype Payload = Event(value: Bytes) | DecodeError(original: u64)

  /** One piece of data; `emptyOk` is the source's answer should it make no event. */
  datatype Piece = Piece(call: Call, emptyOk: bool)

  datatype Reply =
    | StartStream(stream: nat)
    | EndStream(stream: nat)
    | Structured(value: Bytes)
    | Data(stream: nat, piece: Piece)
    | Batch(stream: nat, pieces: seq<Piece>)
    | Disconnected
    | Connected
    | Idle
    | Failure

  type Codec = (Bytes, u64) -> Decoded

  /** Whether the event of an id can be sent to an address. */
  type Links = (u64, nat) -> bool

  datatype Config = Config(template: seq<Chain.Stage>, codec: Codec, errRequired: bool)

  datatype Ending = Running | Done | Failed

  /** What happens, in the order in which it happens. */
  datatype Act =
    | Arrived(msg: Msg)
    | Handled(msg: Msg)
    | Looked
    | Pulled
    | Opened(stream: nat)
    | Closed(stream: nat)
    | Datum(stream: nat, call: Call, original: u64, out: Option<seq<Bytes>>)
    | EmptyEvent(original: u64, stream: nat)
    | Sent(id: u64, toErr: bool, payload: Payload, failed: bool)
    | SourceFail(original: u64)
    | Ended(how: Ending)

  /** `looked` says that the task has found nothing to do for its pipelines and is about to pull. */
  datatype State = State(rx: seq<Msg>, id: u64, triggered: bool, pipesOut: seq<Pipe>, pipesErr: seq<Pipe>,
                         streams: map<nat, seq<Chain.Stage>>, looked: bool, ending: Ending, log: seq<Act>)

  function Start(cfg: Config): State {
    State([], 0, false, [], [], map[0 := cfg.template], false, Running, [])
  }

  // ---------------------------------------------------------------- the effect of each act

  function Retain(ps: seq<Pipe>, id: string): seq<Pipe> {
    if ps == [] then [] else (if ps[0].id != id then [ps[0]] else []) + Retain(ps[1..], id)
  }

  predicate Lists(ps: seq<Pipe>, id: string) {
    exists i | 0 <= i < |ps| :: ps[i].id == id
  }

  function Reached(pipes: seq<Pipe>, reach: nat): seq<Pipe> {
    if reach < |pipes| then pipes[..reach] else pipes
  }

  function Answer(s: State, m: Msg): State {
    match m
    case Connect(port, pipes, reach) =>
      if Lower(port) == "metrics" || pipes == [] then s
      else if port != "out" && port != "err" then s.(ending := Failed)
      else
        var t := if port == "out" then s.(pipesOut := s.pipesOut + Reached(pipes, reach))
                 else s.(pipesErr := s.pipesErr + Reached(pipes, reach));
        if reach < |pipes| then t.(ending := Failed) else t
    case Disconnect(id, told, listening) =>
      if !told && (Lists(s.pipesOut, id) || Lists(s.pipesErr, id)) then s.(ending := Failed)
      else
        var t := s.(pipesOut := Retain(s.pipesOut, id), pipesErr := Retain(s.pipesErr, id));
        if !listening then t.(ending := Failed)
        else if t.pipesOut == [] && t.pipesErr == [] then t.(ending := Done)
        else t
    case CbClose => s.(triggered := true)
    case CbOpen => s.(triggered := false)
    case _ => s
  }

  function Preprocessed(s: State, stream: nat, call: Call): Chain.Outcome<seq<Chain.Stage>>
    requires stream in s.streams
  {
    Chain.Process(s.streams[stream], call.ns, call.data)
  }

  function Emit(cfg: Config, s: State, a: Act): State {
    var t := s.(log := s.log + [a]);
    match a
    case Arrived(m) => t.(rx := s.rx + [m])
    case Handled(m) => if s.rx != [] then Answer(t.(rx := s.rx[1..]), m) else t
    case Looked => t.(looked := true)
    case Pulled => t.(looked := false)
    case Opened(stream) => t.(streams := s.streams[stream := cfg.template])
    case Closed(stream) => t.(streams := s.streams - {stream})
    case Datum(stream, call, _, _) =>
      if stream in s.streams then t.(streams := s.streams[stream := Preprocessed(s, stream, call).after]) else t
    case Sent(_, _, _, _) => t.(id := (s.id + 1) % TWO_64)
    case Ended(how) => t.(ending := how)
    case _ => t
  }

  // ---------------------------------------------------------------- pulling

  predicate Needs(cfg: Config, s: State) {
    s.pipesOut == [] || s.triggered || s.rx != [] || (cfg.errRequired && s.pipesErr == [])
  }

  predicate SomeFails(ps: seq<Pipe>, id: u64, up: Links) {
    exists i | 0 <= i < |ps| :: ps[i].hasPort && !up(id, ps[i].addr)
  }

  function SendAct(s: State, toErr: bool, payload: Payload, up: Links): Act {
    Sent(s.id, toErr, payload, SomeFails(if toErr then s.pipesErr else s.pipesOut, s.id, up))
  }

  function DecodeAll(codec: Codec, items: seq<Bytes>, ns: u64): seq<Option<Bytes>> {
    if items == [] then []
    else
      (match codec(items[0], ns)
       case Skip => []
       case Value(v) => [Some(v)]
       case Bad => [None]) + DecodeAll(codec, items[1..], ns)
  }

  function DatumAct(s: State, stream: nat, call: Call): Act {
    Datum(stream, call, s.id,
          if stream in s.streams then
            var r := Preprocessed(s, stream, call).result;
            if r.Ok? then Some(r.value) else None
          else None)
  }

  /** The events a datum becomes, None standing for an error. */
  function Results(cfg: Config, s: State, stream: nat, call: Call): seq<Option<Bytes>> {
    if stream !in s.streams then [None]
    else
      var o := Preprocessed(s, stream, call);
      if o.result.Ok? then DecodeAll(cfg.codec, o.result.value, o.ns) else [None]
  }

  function PayloadOf(result: Option<Bytes>, original: u64): Payload {
    if result.Some? then Event(result.value) else DecodeError(original)
  }

  /** Routing the results of a datum; also whether a send failed. */
  function Route(cfg: Config, s: State, results: seq<Option<Bytes>>, original: u64, up: Links): (State, bool)
    decreases |results|
  {
    if results == [] then (s, false)
    else
      var a := SendAct(s, results[0].None?, PayloadOf(results[0], original), up);
      var (t, error) := Route(cfg, Emit(cfg, s, a), results[1..], original, up);
      (t, a.failed || error)
  }

  /** Sending the results on, `original` being the id under which the datum was pulled. */
  function Deliver(cfg: Config, s: State, stream: nat, results: seq<Option<Bytes>>, original: u64, emptyOk: bool,
                   up: Links): State
  {
    if results == [] then
      var t := Emit(cfg, s, EmptyEvent(original, stream));
      if emptyOk then t else Emit(cfg, t, Ended(Failed))
    else
      var (t, error) := Route(cfg, s, results, original, up);
      if error then Emit(cfg, t, SourceFail(original)) else t
  }

  function DatumStep(cfg: Config, s: State, stream: nat, piece: Piece, up: Links): State {
    Deliver(cfg, Emit(cfg, s, DatumAct(s, stream, piece.call)), stream, Results(cfg, s, stream, piece.call), s.id,
            piece.emptyOk, up)
  }

  function BatchStep(cfg: Config, s: State, stream: nat, pieces: seq<Piece>, up: Links): State
    decreases |pieces|
  {
    if pieces == [] || s.ending != Running then s
    else BatchStep(cfg, DatumStep(cfg, s, stream, pieces[0], up), stream, pieces[1..], up)
  }

  function PullStep(cfg: Config, s: State, reply: Reply, up: Links): State {
    ReplyStep(cfg, Emit(cfg, s, Pulled), reply, up)
  }

  function ReplyStep(cfg: Config, s: State, reply: Reply, up: Links): State {
    match reply
    case StartStream(stream) => Emit(cfg, s, Opened(stream))
    case EndStream(stream) => Emit(cfg, s, Closed(stream))
    case Structured(value) => Emit(cfg, s, SendAct(s, false, Event(value), up))
    case Data(stream, piece) => DatumStep(cfg, s, stream, piece, up)
    case Batch(stream, pieces) => BatchStep(cfg, s, stream, pieces, up)
    case Disconnected => Emit(cfg, s, Ended(Done))
    case _ => s
  }

  // ---------------------------------------------------------------- the task

  /** Handle messages until none is waiting or the task has ended. */
  function Drain(cfg: Config, s: State): State
    decreases |s.rx|
  {
    if s.ending == Running && s.rx != [] then Drain(cfg, Emit(cfg, s, Handled(s.rx[0]))) else s
  }

  lemma DrainStep(cfg: Config, s: State)
    requires s.ending == Running && s.rx != []
    ensures var t := Emit(cfg, s, Handled(s.rx[0]));
            |t.rx| < |s.rx| && Drain(cfg, s) == Drain(cfg, t) && (t.ending != Running ==> Drain(cfg, t) == t)
  {
  }

  class Manager {
    const cfg: Config
    var rx: seq<Msg>
    var id: u64
    var triggered: bool
    var pipelinesOut: seq<Pipe>
    var pipelinesErr: seq<Pipe>
    var preprocessors: map<nat, seq<Chain.Stage>>
    var ending: Ending
    ghost var looked: bool
    ghost var log: seq<Act>

    constructor (cfg: Config)
      ensures this.cfg == cfg && Snapshot() == Start(cfg)
    {
      this.cfg := cfg;
      rx, id, triggered := [], 0, false;
      pipelinesOut, pipelinesErr := [], [];
      preprocessors, ending, looked, log := map[0 := cfg.template], Running, false, [];
    }

    ghost function Snapshot(): State
      reads this
    {
      State(rx, id, triggered, pipelinesOut, pipelinesErr, preprocessors, looked, ending, log)
    }

    predicate NeedsPipelineMsg()
      reads this
    {
      pipelinesOut == [] || triggered || rx != [] || (cfg.errRequired && pipelinesErr == [])
    }

    /** Connect as many of the pipelines as can be told, one after the other. */
    method ConnectEach(port: string, pipes: seq<Pipe>, reach: nat) returns (ok: bool)
      requires port == "out" || port == "err"
      modifies this`pipelinesOut, this`pipelinesErr
      ensures pipelinesOut == old(pipelinesOut) + if port == "out" then Reached(pipes, reach) else []
      ensures pipelinesErr == old(pipelinesErr) + if port == "out" then [] else Reached(pipes, reach)
      ensures ok == (reach >= |pipes|)
    {
      var i := 0;
      while i < |pipes|
        invariant 0 <= i <= |pipes| && i <= reach
        invariant pipelinesOut == old(pipelinesOut) + if port == "out" then pipes[..i] else []
        invariant pipelinesErr == old(pipelinesErr) + if port == "out" then [] else pipes[..i]
      {
        if i == reach {
          return false;
        }
        assert pipes[..i + 1] == pipes[..i] + [pipes[i]];
        if port == "out" {
          pipelinesOut := pipelinesOut + [pipes[i]];
        } else {
          pipelinesErr := pipelinesErr + [pipes[i]];
        }
        i := i + 1;
      }
      assert pipes[..i] == pipes;
      ok := true;
    }

    method HandleMsg()
      requires ending == Running && rx != []
      modifies this
      ensures Snapshot() == Emit(cfg, old(Snapshot()), Handled(old(rx)[0]))
    {
      var m := rx[0];
      rx, log := rx[1..], log + [Handled(m)];
      match m {
        case Connect(port, pipes, reach) =>
          if Lower(port) != "metrics" && pipes != [] {
            if port != "out" && port != "err" {
              ending := Failed;
            } else {
              var ok := ConnectEach(port, pipes, reach);
              if !ok {
                ending := Failed;
              }
            }
          }
        case Disconnect(id, told, listening) => HandleDisconnect(id, told, listening);
        case CbClose => triggered := true;
        case CbOpen => triggered := false;
        case _ =>
      }
    }

    method HandleDisconnect(id: string, told: bool, listening: bool)
      requires ending == Running
      modifies this
      ensures Snapshot() == Answer(old(Snapshot()), Disconnect(id, told, listening))
    {
      if !told && (Lists(pipelinesOut, id) || Lists(pipelinesErr, id)) {
        ending := Failed;
        return;
      }
      var empty := true;
      pipelinesOut := Retain(pipelinesOut, id);
      empty := empty && pipelinesOut == [];
      pipelinesErr := Retain(pipelinesErr, id);
      empty := empty && pipelinesErr == [];
      if !listening {
        ending := Failed;
      } else if empty {
        ending := Done;
      }
    }

    /** Returns false if the task has to wait for a message, or has ended. */
    method HandlePipelines() returns (ready: bool)
      requires ending == Running
      modifies this
      ensures var s := Drain(cfg, old(Snapshot()));
              && ready == (s.ending == Running && !Needs(cfg, s))
              && Snapshot() == if ready then Emit(cfg, s, Looked) else s
    {
      ghost var all := Drain(cfg, Snapshot());
      while NeedsPipelineMsg()
        invariant ending == Running && Drain(cfg, Snapshot()) == all
        decreases |rx|
      {
        if rx == [] {
          return false;
        }
        DrainStep(cfg, Snapshot());
        HandleMsg();
        if ending != Running {
          return false;
        }
      }
      ready := true;
      looked, log := true, log + [Looked];
    }

    method TransmitEvent(toErr: bool, payload: Payload, up: Links) returns (error: bool)
      modifies this`id, this`log
      ensures Snapshot() == Emit(cfg, old(Snapshot()), SendAct(old(Snapshot()), toErr, payload, up))
      ensures error == SendAct(old(Snapshot()), toErr, payload, up).failed
    {
      var event := id;
      id := (id + 1) % TWO_64;
      error := false;
      var pipelines := if toErr then pipelinesErr else pipelinesOut;
      for i := 0 to |pipelines|
        invariant id == (event + 1) % TWO_64 && log == old(log)
        invariant error == SomeFails(pipelines[..i], event, up)
      {
        assert pipelines[..i + 1] == pipelines[..i] + [pipelines[i]];
        OneMore(pipelines[..i], pipelines[i], event, up);
        if pipelines[i].hasPort && !up(event, pipelines[i].addr) {
          error := true;
        }
      }
      assert pipelines[..|pipelines|] == pipelines;
      log := log + [Sent(event, toErr, payload, error)];
    }

    method RouteResult(results: seq<Option<Bytes>>, original: u64, up: Links) returns (error: bool)
      modifies this`id, this`log
      ensures (Snapshot(), error) == Route(cfg, old(Snapshot()), results, original, up)
    {
      error := false;
      var i := 0;
      while i < |results|
        invariant 0 <= i <= |results|
        invariant preprocessors == old(preprocessors) && rx == old(rx) && triggered == old(triggered)
        invariant ending == old(ending) && pipelinesOut == old(pipelinesOut) && pipelinesErr == old(pipelinesErr)
        invariant looked == old(looked)
        invariant var all, rest := Route(cfg, old(Snapshot()), results, original, up),
                                   Route(cfg, Snapshot(), results[i..], original, up);
                  all.0 == rest.0 && all.1 == (error || rest.1)
      {
        assert results[i..][0] == results[i] && results[i..][1..] == results[i + 1..];
        var e := TransmitEvent(results[i].None?, PayloadOf(results[i], original), up);
        error := error || e;
        i := i + 1;
      }
    }

    /** Preprocess a piece of data and decode what comes out. */
    method MakeEventData(stream: nat, call: Call) returns (results: seq<Option<Bytes>>)
      modifies this`preprocessors, this`log
      ensures results == Results(cfg, old(Snapshot()), stream, call)
      ensures Snapshot() == Emit(cfg, old(Snapshot()), DatumAct(old(Snapshot()), stream, call))
    {
      ghost var s := Snapshot();
      log := log + [DatumAct(s, stream, call)];
      if stream !in preprocessors {
        return [None];
      }
      var o := Chain.Process(preprocessors[stream], call.ns, call.data);
      preprocessors := preprocessors[stream := o.after];
      if o.result.Err? {
        return [None];
      }
      var data := o.result.value;
      results := [];
      ghost var t := Snapshot();
      var i := 0;
      while i < |data|
        invariant 0 <= i <= |data| && Snapshot() == t
        invariant DecodeAll(cfg.codec, data, o.ns) == results + DecodeAll(cfg.codec, data[i..], o.ns)
      {
        assert data[i..][0] == data[i] && data[i..][1..] == data[i + 1..];
        match cfg.codec(data[i], o.ns) {
          case Skip =>
            assert [] + DecodeAll(cfg.codec, data[i + 1..], o.ns) == DecodeAll(cfg.codec, data[i + 1..], o.ns);
          case Value(v) =>
            Assoc(results, [Some(v)], DecodeAll(cfg.codec, data[i + 1..], o.ns));
            results := results + [Some(v)];
          case Bad =>
            Assoc(results, [None], DecodeAll(cfg.codec, data[i + 1..], o.ns));
            results := results + [None];
        }
        i := i + 1;
      }
    }

    method HandleData(stream: nat, piece: Piece, up: Links)
      requires ending == Running
      modifies this
      ensures Snapshot() == DatumStep(cfg, old(Snapshot()), stream, piece, up)
    {
      var original := id;
      var results := MakeEventData(stream, piece.call);
      DeliverResults(stream, results, original, piece.emptyOk, up);
    }

    method DeliverResults(stream: nat, results: seq<Option<Bytes>>, original: u64, emptyOk: bool, up: Links)
      requires ending == Running
      modifies this
      ensures Snapshot() == Deliver(cfg, old(Snapshot()), stream, results, original, emptyOk, up)
    {
      if results == [] {
        log := log + [EmptyEvent(original, stream)];
        if !emptyOk {
          log, ending := log + [Ended(Failed)], Failed;
          return;
        }
      }
      var error := RouteResult(results, original, up);
      if error {
        log := log + [SourceFail(original)];
      }
    }

    /** The data of a batch, one after the other, as long as the task has not ended. */
    method HandleBatch(stream: nat, pieces: seq<Piece>, up: Links)
      requires ending == Running
      modifies this
      ensures Snapshot() == BatchStep(cfg, old(Snapshot()), stream, pieces, up)
    {
      ghost var s := Snapshot();
      var i := 0;
      while i < |pieces| && ending == Running
        invariant 0 <= i <= |pieces|
        invariant BatchStep(cfg, s, stream, pieces, up) == BatchStep(cfg, Snapshot(), stream, pieces[i..], up)
      {
        assert pieces[i..][0] == pieces[i] && pieces[i..][1..] == pieces[i + 1..];
        HandleData(stream, pieces[i], up);
        i := i + 1;
      }
    }

    method Pull(reply: Reply, up: Links)
      requires ending == Running && looked
      modifies this
      ensures Snapshot() == PullStep(cfg, old(Snapshot()), reply, up)
    {
      looked, log := false, log + [Pulled];
      HandleReply(reply, up);
    }

    method HandleReply(reply: Reply, up: Links)
      requires ending == Running
      modifies this
      ensures Snapshot() == ReplyStep(cfg, old(Snapshot()), reply, up)
    {
      match reply {
        case StartStream(stream) =>
          preprocessors, log := preprocessors[stream := cfg.template], log + [Opened(stream)];
        case EndStream(stream) =>
          preprocessors, log := preprocessors - {stream}, log + [Closed(stream)];
        case Structured(value) =>
          var _ := TransmitEvent(false, Event(value), up);
        case Data(stream, piece) => HandleData(stream, piece, up);
        case Batch(stream, pieces) => HandleBatch(stream, pieces, up);
        case Disconnected => log, ending := log + [Ended(Done)], Done;
        case _ =>
      }
    }

    /** One round of the task's loop, as far as it gets without a message arriving. */
    method Round(reply: Reply, up: Links)
      requires ending == Running
      modifies this
      ensures var s := Drain(cfg, old(Snapshot()));
              Snapshot() == if s.ending == Running && !Needs(cfg, s) then PullStep(cfg, Emit(cfg, s, Looked), reply, up)
                            else s
    {
      var ready := HandlePipelines();
      if ready {
        var outEmpty := pipelinesOut == [];
        if !triggered && !outEmpty {
          Pull(reply, up);
        }
      }
    }
  }

  lemma OneMore(ps: seq<Pipe>, p: Pipe, id: u64, up: Links)
    ensures SomeFails(ps + [p], id, up) == (SomeFails(ps, id, up) || (p.hasPort && !up(id, p.addr)))
  {
    assert (ps + [p])[|ps|] == p;
    if SomeFails(ps, id, up) {
      var i :| 0 <= i < |ps| && ps[i].hasPort && !up(id, ps[i].addr);
      assert (ps + [p])[i] == ps[i];
    }
  }
}
