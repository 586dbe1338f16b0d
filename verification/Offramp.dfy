/** The offramp task and its `SinkManager`: two copies of the connection tables, one message loop. */
module Offramp {
  import opened Base

  type Url = string
  type Addr = nat
  type Port = string
  /** Responses go to a destination under the port that its url names; a url may lack one. */
  datatype Dest = Dest(id: Url, addr: Addr, hasPort: bool)

  type Inputs = map<Url, Addr>
  type Dests = map<Port, seq<Dest>>

  // ---------------------------------------------------------------- ports

  datatype Kind = Input | Metrics | Output

  /** The two reserved ports are recognised whatever their case; any other name is a port of its own. */
  function KindOf(port: Port): Kind {
    if Lower(port) == "in" then Input else if Lower(port) == "metrics" then Metrics else Output
  }

  // ---------------------------------------------------------------- messages and their effects

  datatype Reply = Insight(event: int) | Response(port: Port, event: int)

  /** A message, together with what the sink and the outside world answer while it is handled. */
  datatype Msg =
    | Connect(port: Port, id: Url, addr: Addr, hasPort: bool, active: bool)
    | Disconnect(port: Port, id: Url, listening: bool)
    | Event(outcome: Option<seq<Reply>>, transactional: bool, autoAck: bool)
    | Signal(replies: Option<seq<Reply>>)
    | FromSink(reply: Reply)
    | Terminate

  datatype Out =
    | Initial(to: Inputs, active: bool)
    | Contraflow(to: Inputs, event: int)
    | Forward(dests: seq<Dest>, event: int)
    | AckOrFail(to: Inputs, ack: bool)
    | InputConnected(addr: Addr)
    | Marked(done: bool)

  datatype Ending = Running | Done | Terminated | Orphaned

  datatype Tables = Tables(inputs: Inputs, dests: Dests)

  datatype State = State(own: Tables, sink: Tables, ending: Ending)

  // ---------------------------------------------------------------- the tables

  function Retain(ds: seq<Dest>, id: Url): seq<Dest> {
    if ds == [] then []
    else (if ds[0].id != id then [ds[0]] else []) + Retain(ds[1..], id)
  }

  /** What is listed under a port, a port that was never connected listing nothing. */
  function Listed(dests: Dests, port: Port): seq<Dest> {
    if port in dests then dests[port] else []
  }

  predicate HasDests(dests: Dests) {
    exists port | port in dests :: dests[port] != []
  }

  function Push(dests: Dests, port: Port, d: Dest): Dests {
    dests[port := Listed(dests, port) + [d]]
  }

  function Drop(dests: Dests, port: Port, id: Url): Dests {
    if port in dests then dests[port := Retain(dests[port], id)] else dests
  }

  predicate Unused(t: Tables) {
    t.inputs == map[] && !HasDests(t.dests)
  }

  predicate AllPorts(ds: seq<Dest>) {
    forall i | 0 <= i < |ds| :: ds[i].hasPort
  }

  /** Those in front of the first one without a port. */
  function Addressed(ds: seq<Dest>): seq<Dest> {
    if ds == [] || !ds[0].hasPort then [] else [ds[0]] + Addressed(ds[1..])
  }

  /** A response is sent to the first destination last. */
  function SendOrder(ds: seq<Dest>): seq<Dest> {
    if ds == [] then [] else ds[1..] + [ds[0]]
  }

  /** What is sent for a reply of the sink, and whether it could be delivered in full. */
  function Deliver(t: Tables, r: Reply): (seq<Out>, bool) {
    match r
    case Insight(e) => ([Contraflow(t.inputs, e)], true)
    case Response(port, e) =>
      if port in t.dests then ([Forward(Addressed(SendOrder(t.dests[port])), e)], AllPorts(t.dests[port]))
      else ([], true)
  }

  /** Replies to an event: the first that cannot be delivered stops the others. */
  function DeliverUntil(t: Tables, rs: seq<Reply>): (seq<Out>, bool) {
    if rs == [] then ([], true)
    else
      var first := Deliver(t, rs[0]);
      if !first.1 then first
      else
        var rest := DeliverUntil(t, rs[1..]);
        (first.0 + rest.0, rest.1)
  }

  /** Replies to a signal: a failure is only logged. */
  function DeliverAll(t: Tables, rs: seq<Reply>): seq<Out> {
    if rs == [] then [] else Deliver(t, rs[0]).0 + DeliverAll(t, rs[1..])
  }

  // ---------------------------------------------------------------- one message

  function ConnectStep(linked: bool, s: State, port: Port, id: Url, addr: Addr, hasPort: bool, active: bool)
    : (State, seq<Out>)
  {
    match KindOf(port)
    case Input =>
      (s.(own := s.own.(inputs := s.own.inputs[id := addr]),
          sink := s.sink.(inputs := s.sink.inputs[id := addr])),
       if !linked || s.own.dests != map[] then [Initial(map[id := addr], active)] else [])
    case Metrics => (s, [])
    case Output =>
      (s.(own := s.own.(dests := Push(s.own.dests, port, Dest(id, addr, hasPort))),
          sink := s.sink.(dests := Push(s.sink.dests, port, Dest(id, addr, hasPort)))),
       [InputConnected(addr)] +
       (if linked && s.own.inputs != map[] then [Initial(s.own.inputs, active)] else []))
  }

  function Removed(t: Tables, port: Port, id: Url): Tables {
    match KindOf(port)
    case Input => t.(inputs := t.inputs - {id})
    case Metrics => t
    case Output => t.(dests := Drop(t.dests, port, id))
  }

  /** Only `SinkManager`'s tables decide whether the offramp is done. */
  function DisconnectStep(s: State, port: Port, id: Url, listening: bool): (State, seq<Out>) {
    var own, sink := Removed(s.own, port, id), Removed(s.sink, port, id);
    var done := KindOf(port) != Metrics && Unused(sink);
    (State(own, sink, if !listening then Orphaned else if done then Done else s.ending),
     if listening then [Marked(done)] else [])
  }

  function Step(linked: bool, s: State, m: Msg): (State, seq<Out>) {
    if s.ending != Running then (s, [])
    else match m
    case Connect(port, id, addr, hasPort, active) => ConnectStep(linked, s, port, id, addr, hasPort, active)
    case Disconnect(port, id, listening) => DisconnectStep(s, port, id, listening)
    case Event(outcome, transactional, autoAck) =>
      var (out, ok) := if outcome.Some? then DeliverUntil(s.sink, outcome.value) else ([], false);
      (s, out + if (!ok || autoAck) && transactional then [AckOrFail(s.own.inputs, ok)] else [])
    case Signal(replies) => (s, if replies.Some? then DeliverAll(s.sink, replies.value) else [])
    case FromSink(reply) => (s, Deliver(s.own, reply).0)
    case Terminate => (s.(ending := Terminated), [])
  }

  // ---------------------------------------------------------------- the two objects

  class SinkManager {
    var pipelines: Inputs
    var destPipelines: Dests

    constructor ()
      ensures Contents() == Tables(map[], map[])
    {
      pipelines := map[];
      destPipelines := map[];
    }

    function Contents(): Tables
      reads this
    {
      Tables(pipelines, destPipelines)
    }

    method AddPipeline(id: Url, addr: Addr)
      modifies this
      ensures Contents() == old(Contents()).(inputs := old(pipelines)[id := addr])
    {
      pipelines := pipelines[id := addr];
    }

    method AddDestPipeline(port: Port, id: Url, addr: Addr, hasPort: bool)
      modifies this
      ensures Contents() == old(Contents()).(dests := Push(old(destPipelines), port, Dest(id, addr, hasPort)))
    {
      var p := Dest(id, addr, hasPort);
      if port in destPipelines {
        destPipelines := destPipelines[port := destPipelines[port] + [p]];
      } else {
        assert [] + [p] == [p];
        destPipelines := destPipelines[port := [p]];
      }
    }

    method RemovePipeline(id: Url) returns (done: bool)
      modifies this
      ensures Contents() == old(Contents()).(inputs := old(pipelines) - {id})
      ensures done == Unused(Contents())
    {
      pipelines := pipelines - {id};
      done := pipelines == map[] && !HasDests(destPipelines);
    }

    method RemoveDestPipeline(port: Port, id: Url) returns (done: bool)
      modifies this
      ensures Contents() == old(Contents()).(dests := Drop(old(destPipelines), port, id))
      ensures done == Unused(Contents())
    {
      if port in destPipelines {
        destPipelines := destPipelines[port := Retain(destPipelines[port], id)];
      }
      done := pipelines == map[] && !HasDests(destPipelines);
    }

    /** Carry out the replies the sink returned for an event. */
    method OnEvent(replies: seq<Reply>) returns (out: seq<Out>, ok: bool)
      ensures (out, ok) == DeliverUntil(Contents(), replies)
    {
      out := [];
      ghost var all := DeliverUntil(Contents(), replies);
      var i := 0;
      assert replies[0..] == replies && [] + all.0 == all.0;
      while i < |replies|
        invariant 0 <= i <= |replies|
        invariant var rest := DeliverUntil(Contents(), replies[i..]); all == (out + rest.0, rest.1)
      {
        UntilStep(out, Contents(), replies, i);
        match replies[i] {
          case Insight(e) => out := out + [Contraflow(pipelines, e)];
          case Response(port, e) =>
            if port in destPipelines {
              var sent, done := HandleResponse(destPipelines[port]);
              out := out + [Forward(sent, e)];
              if !done {
                return out, false;
              }
            } else {
              assert out == out + [];
            }
        }
        i := i + 1;
      }
      assert replies[i..] == [] && out + [] == out;
      ok := true;
    }

    /** Carry out the replies the sink returned for a signal. */
    method OnSignal(replies: seq<Reply>) returns (out: seq<Out>)
      ensures out == DeliverAll(Contents(), replies)
    {
      out := [];
      ghost var all := DeliverAll(Contents(), replies);
      var i := 0;
      assert replies[0..] == replies && [] + all == all;
      while i < |replies|
        invariant 0 <= i <= |replies|
        invariant all == out + DeliverAll(Contents(), replies[i..])
      {
        AllStep(out, Contents(), replies, i);
        match replies[i] {
          case Insight(e) => out := out + [Contraflow(pipelines, e)];
          case Response(port, e) =>
            if port in destPipelines {
              var sent, _ := HandleResponse(destPipelines[port]);
              out := out + [Forward(sent, e)];
            } else {
              assert out == out + [];
            }
        }
        i := i + 1;
      }
      assert replies[i..] == [] && out + [] == out;
    }
  }

  lemma UntilStep(out: seq<Out>, t: Tables, rs: seq<Reply>, i: nat)
    requires i < |rs|
    ensures var first, more := Deliver(t, rs[i]), DeliverUntil(t, rs[i + 1..]);
            var all := DeliverUntil(t, rs[i..]);
            && (first.1 ==> out + all.0 == (out + first.0) + more.0 && all.1 == more.1)
            && (!first.1 ==> all == first)
  {
    assert rs[i..][0] == rs[i] && rs[i..][1..] == rs[i + 1..];
    Assoc(out, Deliver(t, rs[i]).0, DeliverUntil(t, rs[i + 1..]).0);
  }

  lemma AllStep(out: seq<Out>, t: Tables, rs: seq<Reply>, i: nat)
    requires i < |rs|
    ensures out + DeliverAll(t, rs[i..]) == (out + Deliver(t, rs[i]).0) + DeliverAll(t, rs[i + 1..])
  {
    assert rs[i..][0] == rs[i] && rs[i..][1..] == rs[i + 1..];
    Assoc(out, Deliver(t, rs[i]).0, DeliverAll(t, rs[i + 1..]));
  }

  /** Send a response to all but the first destination, then to that one; stop at a url without a port. */
  method HandleResponse(ds: seq<Dest>) returns (sent: seq<Dest>, ok: bool)
    ensures sent == Addressed(SendOrder(ds)) && ok == AllPorts(ds)
  {
    sent := [];
    if ds == [] {
      return [], true;
    }
    ghost var order := SendOrder(ds);
    var i := 1;
    while i < |ds|
      invariant 1 <= i <= |ds|
      invariant forall j | 1 <= j < i :: ds[j].hasPort
      invariant sent == order[..i - 1]
    {
      if !ds[i].hasPort {
        AddressedPrefix(order, i - 1);
        return sent, false;
      }
      sent := sent + [ds[i]];
      i := i + 1;
    }
    if !ds[0].hasPort {
      AddressedPrefix(order, |ds| - 1);
      return sent, false;
    }
    sent := sent + [ds[0]];
    assert order[..|ds|] == order;
    AddressedPrefix(order, |ds|);
    ok := true;
  }

  lemma {:induction false} AddressedPrefix(ds: seq<Dest>, n: nat)
    requires n <= |ds| && forall i | 0 <= i < n :: ds[i].hasPort
    requires n == |ds| || !ds[n].hasPort
    ensures Addressed(ds) == ds[..n]
  {
    if n > 0 {
      AddressedPrefix(ds[1..], n - 1);
      assert ds[..n] == [ds[0]] + ds[1..][..n - 1];
    }
  }

  class Task {
    const linked: bool
    const sink: SinkManager
    var pipelines: Inputs
    var destPipelines: Dests
    var ending: Ending

    constructor (linked: bool)
      ensures this.linked == linked && fresh(sink) && Snapshot() == Start()
    {
      this.linked := linked;
      sink := new SinkManager();
      pipelines := map[];
      destPipelines := map[];
      ending := Running;
    }

    function Snapshot(): State
      reads this, sink
    {
      State(Tables(pipelines, destPipelines), sink.Contents(), ending)
    }

    /** One turn of the task loop. */
    method Handle(m: Msg) returns (out: seq<Out>)
      requires ending == Running
      modifies this, sink
      ensures (Snapshot(), out) == Step(linked, old(Snapshot()), m)
    {
      out := [];
      match m {
        case Connect(port, id, addr, hasPort, active) => out := OnConnect(port, id, addr, hasPort, active);
        case Disconnect(port, id, listening) => out := OnDisconnect(port, id, listening);
        case Event(outcome, transactional, autoAck) =>
          var fail := true;
          if outcome.Some? {
            var ok;
            out, ok := sink.OnEvent(outcome.value);
            fail := !ok;
          }
          if (fail || autoAck) && transactional {
            out := out + [AckOrFail(pipelines, !fail)];
          } else {
            assert out == out + [];
          }
        case Signal(replies) =>
          if replies.Some? {
            out := sink.OnSignal(replies.value);
          }
        case FromSink(reply) =>
          match reply {
            case Insight(e) => out := [Contraflow(pipelines, e)];
            case Response(port, e) =>
              if port in destPipelines {
                var sent, _ := HandleResponse(destPipelines[port]);
                out := [Forward(sent, e)];
              }
          }
        case Terminate => ending := Terminated;
      }
    }

    method OnConnect(port: Port, id: Url, addr: Addr, hasPort: bool, active: bool) returns (out: seq<Out>)
      modifies this, sink
      ensures (Snapshot(), out) == ConnectStep(linked, old(Snapshot()), port, id, addr, hasPort, active)
    {
      out := [];
      if Lower(port) == "in" {
        if !linked || destPipelines != map[] {
          out := [Initial(map[id := addr], active)];
        }
        pipelines := pipelines[id := addr];
        sink.AddPipeline(id, addr);
      } else if Lower(port) != "metrics" {
        var p := Dest(id, addr, hasPort);
        if port in destPipelines {
          destPipelines := destPipelines[port := destPipelines[port] + [p]];
        } else {
          assert [] + [p] == [p];
          destPipelines := destPipelines[port := [p]];
        }
        sink.AddDestPipeline(port, id, addr, hasPort);
        out := [InputConnected(addr)];
        if linked && pipelines != map[] {
          out := out + [Initial(pipelines, active)];
        } else {
          assert out == out + [];
        }
      }
    }

    method OnDisconnect(port: Port, id: Url, listening: bool) returns (out: seq<Out>)
      modifies this, sink
      ensures (Snapshot(), out) == DisconnectStep(old(Snapshot()), port, id, listening)
    {
      var done := false;
      if Lower(port) == "in" {
        pipelines := pipelines - {id};
        done := sink.RemovePipeline(id);
      } else if Lower(port) != "metrics" {
        if port in destPipelines {
          destPipelines := destPipelines[port := Retain(destPipelines[port], id)];
        }
        done := sink.RemoveDestPipeline(port, id);
      }
      if !listening {
        ending := Orphaned;
        return [];
      }
      if done {
        ending := Done;
      }
      out := [Marked(done)];
    }
  }

  // ---------------------------------------------------------------- whole runs

  function Start(): State {
    State(Tables(map[], map[]), Tables(map[], map[]), Running)
  }

  /** The state after a run; a task that has ended handles nothing more. */
  function After(linked: bool, msgs: seq<Msg>): State
    decreases |msgs|
  {
    if msgs == [] then Start() else Step(linked, After(linked, Front(msgs)), Last(msgs)).0
  }

  /** What the task sends while it handles the last message of a run. */
  function Sent(linked: bool, msgs: seq<Msg>): seq<Out>
    requires msgs != []
  {
    Step(linked, After(linked, Front(msgs)), Last(msgs)).1
  }

  // ---------------------------------------------------------------- what the history says

  /** The address under which an input is connected, read off the messages alone. */
  function InputOf(msgs: seq<Msg>, id: Url): Option<Addr>
    decreases |msgs|
  {
    if msgs == [] then None
    else match Last(msgs)
    case Connect(port, other, addr, _, _) =>
      if KindOf(port) == Input && other == id then Some(addr) else InputOf(Front(msgs), id)
    case Disconnect(port, other, _) =>
      if KindOf(port) == Input && other == id then None else InputOf(Front(msgs), id)
    case _ => InputOf(Front(msgs), id)
  }

  /** The destinations of an output port, in the order in which they were connected. */
  function DestsOf(msgs: seq<Msg>, port: Port): seq<Dest>
    decreases |msgs|
  {
    if msgs == [] then []
    else
      var before := DestsOf(Front(msgs), port);
      match Last(msgs)
      case Connect(p, id, addr, hasPort, _) => if p == port then before + [Dest(id, addr, hasPort)] else before
      case Disconnect(p, id, _) => if p == port then Retain(before, id) else before
      case _ => before
  }

  /** Some destination port has been connected, be it connected still or not. */
  predicate EverLinked(msgs: seq<Msg>)
    decreases |msgs|
  {
    msgs != [] && ((Last(msgs).Connect? && KindOf(Last(msgs).port) == Output) || EverLinked(Front(msgs)))
  }

  predicate Tells(outs: seq<Out>, id: Url, addr: Addr) {
    exists k | 0 <= k < |outs| :: outs[k].Initial? && id in outs[k].to && outs[k].to[id] == addr
  }

  /** The current connection of an input has been sent an initial open or close insight. */
  predicate Informed(linked: bool, msgs: seq<Msg>, id: Url, addr: Addr)
    decreases |msgs|
  {
    msgs != [] &&
    (|| Tells(Sent(linked, msgs), id, addr)
     || (&& !(Last(msgs).Connect? && KindOf(Last(msgs).port) == Input && Last(msgs).id == id)
         && Informed(linked, Front(msgs), id, addr)))
  }

  ghost predicate Reads(t: Tables, msgs: seq<Msg>) {
    && (forall id :: id in t.inputs <==> InputOf(msgs, id).Some?)
    && (forall id :: id in t.inputs ==> InputOf(msgs, id) == Some(t.inputs[id]))
    && (forall port :: KindOf(port) == Output ==> Listed(t.dests, port) == DestsOf(msgs, port))
    && (forall port :: port in t.dests ==> KindOf(port) == Output)
  }

  // ---------------------------------------------------------------- results

  lemma ReadsStep(linked: bool, s: State, msgs: seq<Msg>)
    requires msgs != [] && s.ending == Running
    requires s.own == s.sink && Reads(s.own, Front(msgs))
    ensures var t := Step(linked, s, Last(msgs)).0; t.own == t.sink && Reads(t.own, msgs)
  {
    match Last(msgs) {
      case Connect(port, id, addr, hasPort, active) =>
        ReadsConnect(linked, s, msgs, port, id, addr, hasPort, active);
      case Disconnect(port, id, listening) => ReadsRemoved(s.own, msgs, port, id, listening);
      case _ => ReadsOther(s.own, msgs);
    }
  }

  lemma ReadsConnect(linked: bool, s: State, msgs: seq<Msg>, port: Port, id: Url, addr: Addr, hasPort: bool,
                     active: bool)
    requires msgs != [] && Last(msgs) == Connect(port, id, addr, hasPort, active)
    requires s.own == s.sink && Reads(s.own, Front(msgs))
    ensures var t := ConnectStep(linked, s, port, id, addr, hasPort, active).0; t.own == t.sink && Reads(t.own, msgs)
  {
  }

  lemma ReadsRemoved(t: Tables, msgs: seq<Msg>, port: Port, id: Url, listening: bool)
    requires msgs != [] && Last(msgs) == Disconnect(port, id, listening) && Reads(t, Front(msgs))
    ensures Reads(Removed(t, port, id), msgs)
  {
  }

  lemma ReadsOther(t: Tables, msgs: seq<Msg>)
    requires msgs != [] && !Last(msgs).Connect? && !Last(msgs).Disconnect? && Reads(t, Front(msgs))
    ensures Reads(t, msgs)
  {
  }

  /** Once ended, a task had been running up to some point: every shorter run was still going. */
  lemma RunningBefore(linked: bool, msgs: seq<Msg>)
    requires msgs != [] && After(linked, msgs).ending == Running
    ensures After(linked, Front(msgs)).ending == Running
  {
  }

  /** After every message of any run the task's tables and `SinkManager`'s are the same, and both hold
      exactly the connections that the messages handled so far have left in place. */
  lemma {:induction false} Mirror(linked: bool, msgs: seq<Msg>)
    ensures After(linked, msgs).own == After(linked, msgs).sink
    ensures msgs != [] && After(linked, Front(msgs)).ending == Running ==> Reads(After(linked, msgs).own, msgs)
    ensures After(linked, msgs).ending == Running ==> Reads(After(linked, msgs).own, msgs)
    decreases |msgs|
  {
    if msgs != [] {
      Mirror(linked, Front(msgs));
      if After(linked, Front(msgs)).ending == Running {
        ReadsStep(linked, After(linked, Front(msgs)), msgs);
      }
    }
  }

  ghost predicate NothingConnected(msgs: seq<Msg>) {
    && (forall id :: InputOf(msgs, id).None?)
    && (forall port :: KindOf(port) == Output ==> DestsOf(msgs, port) == [])
  }

  lemma UnusedMeans(t: Tables, msgs: seq<Msg>)
    requires Reads(t, msgs)
    ensures Unused(t) <==> NothingConnected(msgs)
  {
    if Unused(t) {
      assert forall port :: KindOf(port) == Output ==> Listed(t.dests, port) == [];
    }
    if NothingConnected(msgs) {
      assert forall id :: id !in t.inputs;
      forall port | port in t.dests ensures t.dests[port] == [] {
        assert Listed(t.dests, port) == DestsOf(msgs, port);
      }
    }
  }

  /** A message ends a running task as done exactly when it is an answered disconnect, of anything but
      the metrics port, after which nothing is connected any more. */
  lemma DoneExactly(linked: bool, msgs: seq<Msg>)
    requires msgs != [] && After(linked, Front(msgs)).ending == Running
    ensures After(linked, msgs).ending == Done <==>
            && Last(msgs).Disconnect? && Last(msgs).listening
            && KindOf(Last(msgs).port) != Metrics && NothingConnected(msgs)
  {
    Mirror(linked, msgs);
    UnusedMeans(After(linked, msgs).sink, msgs);
  }

  /** A reply reaches the same pipelines whether the sink returns it from the event handler or puts it on
      its reply channel. */
  lemma EitherWay(linked: bool, msgs: seq<Msg>, r: Reply)
    requires After(linked, msgs).ending == Running
    ensures Sent(linked, msgs + [Event(Some([r]), false, false)]) == Sent(linked, msgs + [FromSink(r)])
  {
    Mirror(linked, msgs);
    SentSnoc(linked, msgs, Event(Some([r]), false, false));
    SentSnoc(linked, msgs, FromSink(r));
    DeliverOne(After(linked, msgs).sink, r);
  }

  lemma SentSnoc(linked: bool, msgs: seq<Msg>, m: Msg)
    ensures Sent(linked, msgs + [m]) == Step(linked, After(linked, msgs), m).1
    ensures After(linked, msgs + [m]) == Step(linked, After(linked, msgs), m).0
  {
    assert Front(msgs + [m]) == msgs;
  }

  lemma DeliverOne(t: Tables, r: Reply)
    ensures DeliverUntil(t, [r]).0 + [] == Deliver(t, r).0
  {
    var none: seq<Reply> := [r][1..];
    assert none == [];
    assert Deliver(t, r).0 + [] == Deliver(t, r).0;
  }

  predicate Deliverable(t: Tables, r: Reply) {
    r.Response? && r.port in t.dests ==> AllPorts(t.dests[r.port])
  }

  lemma {:induction false} UntilDelivered(t: Tables, rs: seq<Reply>)
    ensures DeliverUntil(t, rs).1 <==> forall i | 0 <= i < |rs| :: Deliverable(t, rs[i])
  {
    if rs != [] {
      UntilDelivered(t, rs[1..]);
      assert forall i | 0 <= i < |rs[1..]| :: rs[1..][i] == rs[i + 1];
      if Deliverable(t, rs[0]) && forall i | 0 <= i < |rs[1..]| :: Deliverable(t, rs[1..][i]) {
        forall i | 0 <= i < |rs| ensures Deliverable(t, rs[i]) {
          if i > 0 {
            assert rs[1..][i - 1] == rs[i];
          }
        }
      }
    }
  }

  /** A transactional event is answered with a fail exactly when the sink failed, or returned a response
      for a port with a destination whose url lacks a port; with an ack only if the sink leaves that to the
      offramp. Either goes to all the inputs connected at that time. */
  lemma AnsweredExactly(linked: bool, msgs: seq<Msg>, outcome: Option<seq<Reply>>, autoAck: bool)
    requires After(linked, msgs).ending == Running
    ensures var t := After(linked, msgs).own;
            var out := Sent(linked, msgs + [Event(outcome, true, autoAck)]);
            var ok := outcome.Some? && forall i | 0 <= i < |outcome.value| :: Deliverable(t, outcome.value[i]);
            if ok && !autoAck then !Answers(out) else out != [] && out[|out| - 1] == AckOrFail(t.inputs, ok)
  {
    Mirror(linked, msgs);
    SentSnoc(linked, msgs, Event(outcome, true, autoAck));
    if outcome.Some? {
      UntilDelivered(After(linked, msgs).sink, outcome.value);
      UntilAnswers(After(linked, msgs).sink, outcome.value);
    }
  }

  /** Such an event: the sink has taken it, and answers on a port that was connected to a url without one. */
  lemma TakenYetFailed(linked: bool, port: Port, dest: Url, addr: Addr, active: bool, event: int, autoAck: bool)
    requires KindOf(port) == Output
    ensures var msgs := [Connect(port, dest, addr, false, active)];
            && After(linked, msgs).ending == Running
            && Sent(linked, msgs + [Event(Some([Response(port, event)]), true, autoAck)])
               == [Forward([], event), AckOrFail(map[], false)]
  {
    var c := Connect(port, dest, addr, false, active);
    var e := Event(Some([Response(port, event)]), true, autoAck);
    var d := Dest(dest, addr, false);
    SentSnoc(linked, [], c);
    assert [] + [c] == [c] && [] + [d] == [d];
    SentSnoc(linked, [c], e);
    var t := After(linked, [c]).sink;
    assert t.dests == map[port := [d]] && t.inputs == map[];
    assert SendOrder([d]) == [d] && !AllPorts([d]) by { assert [d][1..] == [] && ![d][0].hasPort; }
    assert DeliverUntil(t, [Response(port, event)]) == ([Forward([], event)], false);
  }

  predicate Answers(outs: seq<Out>) {
    exists i | 0 <= i < |outs| :: outs[i].AckOrFail?
  }

  lemma {:induction false} UntilAnswers(t: Tables, rs: seq<Reply>)
    ensures !Answers(DeliverUntil(t, rs).0)
  {
    if rs != [] {
      UntilAnswers(t, rs[1..]);
    }
  }

  lemma PushLinks(dests: Dests, port: Port, d: Dest)
    ensures Push(dests, port, d) != map[]
  {
    assert port in Push(dests, port, d);
  }

  lemma DropLinks(dests: Dests, port: Port, id: Url)
    ensures Drop(dests, port, id) == map[] <==> dests == map[]
  {
    assert port in dests ==> port in Drop(dests, port, id);
  }

  /** The table of destinations never loses a port. */
  lemma {:induction false} LinkedForEver(linked: bool, msgs: seq<Msg>)
    requires After(linked, msgs).ending == Running
    ensures After(linked, msgs).own.dests != map[] <==> EverLinked(msgs)
    decreases |msgs|
  {
    if msgs != [] {
      RunningBefore(linked, msgs);
      LinkedForEver(linked, Front(msgs));
      var dests := After(linked, Front(msgs)).own.dests;
      match Last(msgs) {
        case Connect(port, id, addr, hasPort, _) => PushLinks(dests, port, Dest(id, addr, hasPort));
        case Disconnect(port, id, _) => DropLinks(dests, port, id);
        case _ =>
      }
    }
  }

  /** A connected input has been sent its initial insight exactly when the offramp is not linked or some
      destination port has ever been connected. */
  lemma {:induction false} InformedExactly(linked: bool, msgs: seq<Msg>, id: Url)
    requires After(linked, msgs).ending == Running && InputOf(msgs, id).Some?
    ensures Informed(linked, msgs, id, InputOf(msgs, id).value) <==> !linked || EverLinked(msgs)
    decreases |msgs|
  {
    var addr := InputOf(msgs, id).value;
    RunningBefore(linked, msgs);
    Mirror(linked, Front(msgs));
    LinkedForEver(linked, Front(msgs));
    if InputOf(Front(msgs), id) == Some(addr) {
      InformedExactly(linked, Front(msgs), id);
    }
    InformedStep(linked, After(linked, Front(msgs)), Last(msgs), id, addr);
  }

  /** Which steps tell a given input. */
  lemma InformedStep(linked: bool, s: State, m: Msg, id: Url, addr: Addr)
    requires s.ending == Running
    ensures Tells(Step(linked, s, m).1, id, addr) <==>
            && m.Connect?
            && (|| (KindOf(m.port) == Input && m.id == id && m.addr == addr && (!linked || s.own.dests != map[]))
                || (KindOf(m.port) == Output && linked && id in s.own.inputs && s.own.inputs[id] == addr))
  {
    var outs := Step(linked, s, m).1;
    match m {
      case Connect(_, _, _, _, _) => ConnectTells(linked, s, m, id, addr);
      case Disconnect(_, _, _) =>
      case Event(outcome, transactional, autoAck) =>
        if outcome.Some? {
          UntilNotInitial(s.sink, outcome.value);
        }
      case Signal(replies) =>
        if replies.Some? {
          RepliesAreNotInitial(s.sink, replies.value);
        }
      case FromSink(_) =>
      case Terminate =>
    }
  }

  lemma ConnectTells(linked: bool, s: State, m: Msg, id: Url, addr: Addr)
    requires m.Connect?
    ensures Tells(ConnectStep(linked, s, m.port, m.id, m.addr, m.hasPort, m.active).1, id, addr) <==>
            || (KindOf(m.port) == Input && m.id == id && m.addr == addr && (!linked || s.own.dests != map[]))
            || (KindOf(m.port) == Output && linked && id in s.own.inputs && s.own.inputs[id] == addr)
  {
    var outs := ConnectStep(linked, s, m.port, m.id, m.addr, m.hasPort, m.active).1;
    match KindOf(m.port) {
      case Input =>
        if !linked || s.own.dests != map[] {
          assert outs[0] == Initial(map[m.id := m.addr], m.active);
        }
      case Metrics =>
      case Output =>
        if linked && s.own.inputs != map[] {
          assert outs[1] == Initial(s.own.inputs, m.active);
        }
    }
  }

  lemma {:induction false} UntilNotInitial(t: Tables, rs: seq<Reply>)
    ensures forall k | 0 <= k < |DeliverUntil(t, rs).0| :: !DeliverUntil(t, rs).0[k].Initial?
  {
    if rs != [] {
      UntilNotInitial(t, rs[1..]);
    }
  }

  lemma {:induction false} RepliesAreNotInitial(t: Tables, rs: seq<Reply>)
    ensures forall k | 0 <= k < |DeliverAll(t, rs)| :: !DeliverAll(t, rs)[k].Initial?
  {
    if rs != [] {
      RepliesAreNotInitial(t, rs[1..]);
    }
  }

  /** "Ever connected" cannot be sharpened to "connected now": once its only destination is gone, a linked
      offramp still tells the next input to open, although nothing would receive its responses. */
  lemma StaleLink(pin: Port, pout: Port, first: Url, second: Url, dest: Url, addr: Addr, hasPort: bool)
    requires KindOf(pin) == Input && KindOf(pout) == Output && first != second
    ensures var msgs := [Connect(pin, first, addr, true, true), Connect(pout, dest, addr, hasPort, true),
                         Disconnect(pout, dest, true), Connect(pin, second, addr, true, true)];
            && After(true, msgs).ending == Running
            && !HasDests(After(true, msgs).own.dests)
            && Informed(true, msgs, second, addr)
  {
    var a, b := Connect(pin, first, addr, true, true), Connect(pout, dest, addr, hasPort, true);
    var c, d := Disconnect(pout, dest, true), Connect(pin, second, addr, true, true);
    SentSnoc(true, [], a);
    SentSnoc(true, [a], b);
    SentSnoc(true, [a, b], c);
    SentSnoc(true, [a, b, c], d);
    assert [] + [a] == [a] && [a] + [b] == [a, b] && [a, b] + [c] == [a, b, c];
    assert [a, b, c] + [d] == [a, b, c, d];
    LinkAndUnlink(pin, pout, first, dest, addr, hasPort);
    assert Sent(true, [a, b, c, d])[0] == Initial(map[second := addr], true);
  }

  lemma LinkAndUnlink(pin: Port, pout: Port, id: Url, dest: Url, addr: Addr, hasPort: bool)
    requires KindOf(pin) == Input && KindOf(pout) == Output
    ensures var s := ConnectStep(true, Start(), pin, id, addr, true, true).0;
            var s' := ConnectStep(true, s, pout, dest, addr, hasPort, true).0;
            var t := Tables(map[id := addr], map[pout := []]);
            DisconnectStep(s', pout, dest, true).0 == State(t, t, Running)
  {
    var s := ConnectStep(true, Start(), pin, id, addr, true, true).0;
    var s' := ConnectStep(true, s, pout, dest, addr, hasPort, true).0;
    var d := Dest(dest, addr, hasPort);
    assert [] + [d] == [d];
    RetainOne(d);
    assert s'.own.dests == map[pout := [d]];
    var t := DisconnectStep(s', pout, dest, true).0;
    assert t.own.dests == map[pout := []];
    assert id in t.own.inputs;
  }

  lemma RetainOne(d: Dest)
    ensures Retain([d], d.id) == []
  {
    var ds := [d];
    assert ds[1..] == [];
  }
}
