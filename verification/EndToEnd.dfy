/** The chain `gelf-chunking`, `length-prefixed` on the way out and its mirror image on the way in:
    what is sent is received, however the byte stream between them is cut up. */
module EndToEnd {
  import opened Base
  import Framing
  import opened Chain
  import opened GelfReassembly
  import Gelf
  import GelfWire
  import LengthPrefix

  /** Bytes handed to a chain at an ingest time. */
  datatype Call = Call(ns: u64, data: Bytes)

  // ---------------------------------------------------------------- the two ends

  /** Sending: everything one call after the other puts on the wire; a refused message puts nothing. */
  function SendAll(stages: seq<Stage>, calls: seq<Call>): Bytes
    decreases calls
  {
    if calls == [] then []
    else
      var first := Process(stages, calls[0].ns, calls[0].data);
      (if first.result.Ok? then Flatten(first.result.value) else []) + SendAll(first.after, calls[1..])
  }

  /** Receiving: the stages in the end, whether every call succeeded, and all messages. */
  datatype Received = Received(stages: seq<Stage>, ok: bool, out: seq<Bytes>)

  function ReceiveAll(stages: seq<Stage>, calls: seq<Call>): Received
    decreases calls
  {
    if calls == [] then Received(stages, true, [])
    else
      var first := Process(stages, calls[0].ns, calls[0].data);
      var more := ReceiveAll(first.after, calls[1..]);
      Received(more.stages, first.result.Ok? && more.ok,
               (if first.result.Ok? then first.result.value else []) + more.out)
  }

  function Datas(calls: seq<Call>): seq<Bytes> {
    if calls == [] then [] else [calls[0].data] + Datas(calls[1..])
  }

  function NonEmpty(payloads: seq<Bytes>): seq<Bytes> {
    if payloads == [] then []
    else (if payloads[0] == [] then [] else [payloads[0]]) + NonEmpty(payloads[1..])
  }

  function Sender(id: u64, chunkSize: ChunkSize): seq<Stage> {
    [PutGelfChunks(id, chunkSize), PutLengthPrefix]
  }

  function Receiver(prefix: Framing.State, gelf: Gelf.State): seq<Stage> {
    [LengthPrefixed(prefix), GelfChunking(gelf)]
  }

  lemma FlatMapSingle(stage: Stage, ns: u64, data: Bytes)
    ensures FlatMap(stage, ns, [data]) == Apply(stage, ns, data)
  {
    var one: seq<Bytes> := [data];
    assert one[1..] == [];
    var r := Apply(stage, ns, data);
    if r.result.Ok? {
      assert r.result.value + [] == r.result.value;
    }
  }

  lemma FoldTwo(a: Stage, b: Stage, ns: u64, items: seq<Bytes>)
    requires FlatMap(a, ns, items).result.Ok?
    requires var first := FlatMap(a, ns, items);
             FlatMap(b, first.ns, first.result.value).result.Ok?
    ensures var first := FlatMap(a, ns, items);
            var second := FlatMap(b, first.ns, first.result.value);
            Fold([a, b], ns, items) == Outcome([first.after, second.after], second.ns, second.result)
  {
    var first := FlatMap(a, ns, items);
    var second := FlatMap(b, first.ns, first.result.value);
    var none, tail: seq<Stage> := [], [b];
    assert [a, b][1..] == tail && tail[1..] == none;
    var last := Fold(tail, first.ns, first.result.value);
    assert Fold(none, second.ns, second.result.value) == Outcome([], second.ns, second.result);
    assert last == Outcome([second.after] + none, second.ns, second.result);
    assert [second.after] + none == [second.after];
    assert [first.after] + [second.after] == [first.after, second.after];
  }

  // ---------------------------------------------------------------- the sender

  /** Numbered chunks. */
  function SegmentsOf(id: u64, chunks: seq<Bytes>): (r: seq<Gelf.Segment>)
    requires |chunks| <= 255
    ensures |r| == |chunks|
  {
    seq(|chunks|, i requires 0 <= i < |chunks| => Gelf.Segment(id, i, |chunks|, chunks[i]))
  }

  /** What the sender chunks a message into, as segments and as datagrams. */
  function Segments(id: u64, chunkSize: ChunkSize, data: Bytes): seq<Gelf.Segment>
    requires GelfWire.Encode(id, chunkSize, data).Ok?
  {
    SegmentsOf(id, GelfWire.Chunks(data, chunkSize - GelfWire.HEADER))
  }

  predicate Encodable(chunkSize: ChunkSize, calls: seq<Call>) {
    forall c :: c in calls ==> GelfWire.Encode(0, chunkSize, c.data).Ok?
  }

  lemma EncodableParts(chunkSize: ChunkSize, calls: seq<Call>)
    requires calls != [] && Encodable(chunkSize, calls)
    ensures GelfWire.Encode(0, chunkSize, calls[0].data).Ok? && Encodable(chunkSize, calls[1..])
  {
    assert calls[0] in calls && forall c :: c in calls[1..] ==> c in calls;
  }

  function Next(id: u64): u64 { (id + 1) % TWO_64 }

  function AllSegments(id: u64, chunkSize: ChunkSize, calls: seq<Call>): seq<Gelf.Segment>
    requires Encodable(chunkSize, calls)
    decreases calls
  {
    if calls == [] then []
    else
      EncodableParts(chunkSize, calls);
      Segments(id, chunkSize, calls[0].data) + AllSegments(Next(id), chunkSize, calls[1..])
  }

  function AllDatagrams(id: u64, chunkSize: ChunkSize, calls: seq<Call>): seq<Bytes>
    requires Encodable(chunkSize, calls)
    decreases calls
  {
    if calls == [] then []
    else
      EncodableParts(chunkSize, calls);
      GelfWire.Encode(id, chunkSize, calls[0].data).value + AllDatagrams(Next(id), chunkSize, calls[1..])
  }

  lemma {:induction false} FrameEach(ns: u64, items: seq<Bytes>)
    ensures var r := FlatMap(PutLengthPrefix, ns, items);
            r.after == PutLengthPrefix && r.ns == ns && r.result.Ok?
            && Flatten(r.result.value) == LengthPrefix.Wire(items)
    decreases items
  {
    if items != [] {
      FrameEach(ns, items[1..]);
      var more := FlatMap(PutLengthPrefix, ns, items[1..]).result.value;
      FlattenAppend([LengthPrefix.Frame(items[0])], more);
      var one: seq<Bytes> := [LengthPrefix.Frame(items[0])];
      assert one[1..] == [] && Flatten(one) == one[0] + Flatten(one[1..]);
    }
  }

  lemma SendOne(id: u64, chunkSize: ChunkSize, c: Call)
    requires GelfWire.Encode(id, chunkSize, c.data).Ok?
    ensures var r := Process(Sender(id, chunkSize), c.ns, c.data);
            r.after == Sender(Next(id), chunkSize) && r.result.Ok?
            && Flatten(r.result.value) == LengthPrefix.Wire(GelfWire.Encode(id, chunkSize, c.data).value)
  {
    var datagrams := GelfWire.Encode(id, chunkSize, c.data).value;
    var chunker := PutGelfChunks(id, chunkSize);
    FlatMapSingle(chunker, c.ns, c.data);
    FrameEach(c.ns, datagrams);
    FoldTwo(chunker, PutLengthPrefix, c.ns, [c.data]);
  }

  /** A message that is refused changes nothing. */
  lemma RefuseOne(id: u64, chunkSize: ChunkSize, c: Call)
    requires GelfWire.Encode(id, chunkSize, c.data).Err?
    ensures var r := Process(Sender(id, chunkSize), c.ns, c.data);
            r.after == Sender(id, chunkSize) && r.result.Err?
  {
    var chunker := PutGelfChunks(id, chunkSize);
    FlatMapSingle(chunker, c.ns, c.data);
    assert Sender(id, chunkSize)[1..] == [PutLengthPrefix];
    assert [chunker] + [PutLengthPrefix] == Sender(id, chunkSize);
  }

  /** The messages that are not refused. */
  function Accepted(chunkSize: ChunkSize, calls: seq<Call>): (r: seq<Call>)
    ensures Encodable(chunkSize, r)
  {
    if calls == [] then []
    else (if GelfWire.Encode(0, chunkSize, calls[0].data).Ok? then [calls[0]] else []) + Accepted(chunkSize, calls[1..])
  }

  lemma {:induction false} AcceptedFewer(chunkSize: ChunkSize, calls: seq<Call>)
    ensures |Accepted(chunkSize, calls)| <= |calls|
  {
    if calls != [] {
      AcceptedFewer(chunkSize, calls[1..]);
    }
  }

  lemma {:induction false} SentWire(id: u64, chunkSize: ChunkSize, calls: seq<Call>)
    ensures SendAll(Sender(id, chunkSize), calls)
         == LengthPrefix.Wire(AllDatagrams(id, chunkSize, Accepted(chunkSize, calls)))
    decreases calls
  {
    if calls != [] {
      if GelfWire.Encode(id, chunkSize, calls[0].data).Ok? {
        SendOne(id, chunkSize, calls[0]);
        SentWire(Next(id), chunkSize, calls[1..]);
        AcceptedDatagrams(id, chunkSize, calls);
      } else {
        RefuseOne(id, chunkSize, calls[0]);
        SentWire(id, chunkSize, calls[1..]);
        var rest := SendAll(Sender(id, chunkSize), calls[1..]);
        assert [] + rest == rest;
        assert [] + Accepted(chunkSize, calls[1..]) == Accepted(chunkSize, calls[1..]);
      }
    }
  }

  lemma AcceptedDatagrams(id: u64, chunkSize: ChunkSize, calls: seq<Call>)
    requires calls != [] && GelfWire.Encode(id, chunkSize, calls[0].data).Ok?
    ensures LengthPrefix.Wire(AllDatagrams(id, chunkSize, Accepted(chunkSize, calls)))
         == LengthPrefix.Wire(GelfWire.Encode(id, chunkSize, calls[0].data).value)
            + LengthPrefix.Wire(AllDatagrams(Next(id), chunkSize, Accepted(chunkSize, calls[1..])))
  {
    var rest := Accepted(chunkSize, calls[1..]);
    assert ([calls[0]] + rest)[1..] == rest;
    var first := GelfWire.Encode(id, chunkSize, calls[0].data).value;
    LengthPrefix.WireAppend(first, AllDatagrams(Next(id), chunkSize, rest));
  }

  /** Every datagram parses to its segment, and is neither empty nor too long for a length prefix. */
  predicate Agree(chunkSize: ChunkSize, datagrams: seq<Bytes>, segments: seq<Gelf.Segment>) {
    |datagrams| == |segments|
    && forall i :: 0 <= i < |datagrams| ==>
         GelfWire.ParseChunk(datagrams[i], 0) == Ok(segments[i]) && 0 < |datagrams[i]| <= chunkSize
  }

  lemma {:induction false} DatagramsParse(id: u64, chunkSize: ChunkSize, calls: seq<Call>)
    requires Encodable(chunkSize, calls)
    ensures Agree(chunkSize, AllDatagrams(id, chunkSize, calls), AllSegments(id, chunkSize, calls))
    decreases calls
  {
    if calls != [] {
      EncodableParts(chunkSize, calls);
      DatagramsParse(Next(id), chunkSize, calls[1..]);
      DatagramsOf(id, chunkSize, calls[0].data);
      AgreeAppend(chunkSize,
                  GelfWire.Encode(id, chunkSize, calls[0].data).value, AllDatagrams(Next(id), chunkSize, calls[1..]),
                  Segments(id, chunkSize, calls[0].data), AllSegments(Next(id), chunkSize, calls[1..]));
    }
  }

  lemma AgreeAppend(chunkSize: ChunkSize, a: seq<Bytes>, b: seq<Bytes>,
                    x: seq<Gelf.Segment>, y: seq<Gelf.Segment>)
    requires Agree(chunkSize, a, x) && Agree(chunkSize, b, y)
    ensures Agree(chunkSize, a + b, x + y)
  {
  }

  lemma DatagramsOf(id: u64, chunkSize: ChunkSize, data: Bytes)
    requires GelfWire.Encode(id, chunkSize, data).Ok?
    ensures Agree(chunkSize, GelfWire.Encode(id, chunkSize, data).value, Segments(id, chunkSize, data))
  {
    var size: nat := chunkSize - GelfWire.HEADER;
    var chunks := GelfWire.Chunks(data, size);
    GelfWire.ChunksFlatten(data, size);
    forall i | 0 <= i < |chunks|
      ensures GelfWire.ParseChunk(GelfWire.EncodeChunk(id, i, |chunks|, chunks[i]), 0)
           == Ok(Gelf.Segment(id, i, |chunks|, chunks[i]))
      ensures 0 < |GelfWire.EncodeChunk(id, i, |chunks|, chunks[i])| <= chunkSize
    {
      GelfWire.ParseEncoded(id, i, |chunks|, chunks[i], 0);
      assert chunks[i] in chunks;
    }
  }

  // ---------------------------------------------------------------- the receiver

  predicate Parsable(datagrams: seq<Bytes>) {
    forall i :: 0 <= i < |datagrams| ==> GelfWire.ParseChunk(datagrams[i], 0).Ok?
  }

  /** The chunks of datagrams that come out of the length decoder at the same time. */
  function EventsOf(ns: u64, datagrams: seq<Bytes>): seq<Event>
    requires Parsable(datagrams)
  {
    seq(|datagrams|, i requires 0 <= i < |datagrams| =>
      Event(ns, GelfWire.ParseChunk(datagrams[i], 0).value))
  }

  /** The messages that come out of the first `k` events. */
  function Outputs(s: Gelf.State, evs: seq<Event>, k: nat): seq<Bytes>
    requires k <= |evs|
  {
    if k == 0 then []
    else
      var out := OutAt(s, evs, k - 1);
      Outputs(s, evs, k - 1) + (if out.Some? then [out.value] else [])
  }

  lemma GelfApply(s: Gelf.State, ns: u64, datagram: Bytes)
    requires GelfWire.ParseChunk(datagram, 0).Ok?
    ensures var t := Gelf.Accept(s, ns, GelfWire.ParseChunk(datagram, 0).value);
            Apply(GelfChunking(s), ns, datagram)
            == Outcome(GelfChunking(t.state), ns, Ok(if t.out.Some? then [t.out.value] else []))
  {
  }

  lemma {:induction false} GelfFlatMap(s: Gelf.State, ns: u64, datagrams: seq<Bytes>, k: nat)
    requires Parsable(datagrams) && k <= |datagrams|
    ensures var evs := EventsOf(ns, datagrams);
            FlatMap(GelfChunking(s), ns, datagrams[..k])
            == Outcome(GelfChunking(StateAt(s, evs, k)), ns, Ok(Outputs(s, evs, k)))
  {
    if k > 0 {
      GelfFlatMap(s, ns, datagrams, k - 1);
      FlatMapNext(GelfChunking(s), ns, datagrams, k - 1);
      GelfApply(StateAt(s, EventsOf(ns, datagrams), k - 1), ns, datagrams[k - 1]);
    }
  }

  lemma {:induction false} Continue(s: Gelf.State, a: seq<Event>, b: seq<Event>, k: nat)
    requires k <= |b|
    ensures StateAt(s, a + b, |a| + k) == StateAt(StateAt(s, a, |a|), b, k)
    ensures Outputs(s, a + b, |a| + k) == Outputs(s, a, |a|) + Outputs(StateAt(s, a, |a|), b, k)
  {
    if k > 0 {
      Continue(s, a, b, k - 1);
      assert (a + b)[|a| + k - 1] == b[k - 1];
      var out := OutAt(StateAt(s, a, |a|), b, k - 1);
      Assoc(Outputs(s, a, |a|), Outputs(StateAt(s, a, |a|), b, k - 1), if out.Some? then [out.value] else []);
    } else {
      Prefix(s, a, b, |a|);
    }
  }

  /** A run in two parts. */
  lemma {:induction false} TwoParts(s: Gelf.State, evs: seq<Event>, a: seq<Event>, b: seq<Event>)
    requires evs == a + b
    ensures StateAt(s, evs, |evs|) == StateAt(StateAt(s, a, |a|), b, |b|)
    ensures Outputs(s, evs, |evs|) == Outputs(s, a, |a|) + Outputs(StateAt(s, a, |a|), b, |b|)
  {
    Continue(s, a, b, |b|);
  }

  lemma {:induction false} Prefix(s: Gelf.State, a: seq<Event>, b: seq<Event>, k: nat)
    requires k <= |a|
    ensures StateAt(s, a + b, k) == StateAt(s, a, k) && Outputs(s, a + b, k) == Outputs(s, a, k)
  {
    if k > 0 {
      Prefix(s, a, b, k - 1);
      assert (a + b)[k - 1] == a[k - 1];
    }
  }

  lemma FeedAllCons(prefix: Framing.State, calls: seq<Call>)
    requires calls != []
    ensures var first := LengthPrefix.Feed(prefix, calls[0].data);
            var more := LengthPrefix.FeedAll(first.state, Datas(calls[1..]));
            var all := LengthPrefix.FeedAll(prefix, Datas(calls));
            all == LengthPrefix.Fed(first.out + more.out, more.state)
            && (Parsable(all.out) ==> Parsable(first.out) && Parsable(more.out))
  {
    var first := LengthPrefix.Feed(prefix, calls[0].data);
    var more := LengthPrefix.FeedAll(first.state, Datas(calls[1..]));
    assert Datas(calls)[1..] == Datas(calls[1..]);
    if Parsable(first.out + more.out) {
      ParsableParts(first.out, more.out);
    }
  }

  /** What the length decoder hands on, call by call. */
  function Arrivals(prefix: Framing.State, calls: seq<Call>): seq<Event>
    requires Parsable(LengthPrefix.FeedAll(prefix, Datas(calls)).out)
    decreases calls
  {
    if calls == [] then []
    else
      var first := LengthPrefix.Feed(prefix, calls[0].data);
      FeedAllCons(prefix, calls);
      EventsOf(calls[0].ns, first.out) + Arrivals(first.state, calls[1..])
  }

  lemma ParsableParts(a: seq<Bytes>, b: seq<Bytes>)
    requires Parsable(a + b)
    ensures Parsable(a) && Parsable(b)
  {
    assert forall i :: 0 <= i < |a| ==> (a + b)[i] == a[i];
    assert forall i :: 0 <= i < |b| ==> (a + b)[|a| + i] == b[i];
  }

  /** The events are the datagrams in order, at the times of the calls that completed them. */
  lemma {:induction false} ArrivalsAre(prefix: Framing.State, calls: seq<Call>)
    requires Parsable(LengthPrefix.FeedAll(prefix, Datas(calls)).out)
    ensures var ds, evs := LengthPrefix.FeedAll(prefix, Datas(calls)).out, Arrivals(prefix, calls);
            |evs| == |ds|
            && forall i :: 0 <= i < |ds| ==> Ok(evs[i].msg) == GelfWire.ParseChunk(ds[i], 0)
    decreases calls
  {
    if calls != [] {
      var first := LengthPrefix.Feed(prefix, calls[0].data);
      FeedAllCons(prefix, calls);
      ArrivalsAre(first.state, calls[1..]);
    }
  }

  lemma ReceiveOne(prefix: Framing.State, gelf: Gelf.State, c: Call)
    requires Parsable(LengthPrefix.Feed(prefix, c.data).out)
    ensures var f := LengthPrefix.Feed(prefix, c.data);
            var evs := EventsOf(c.ns, f.out);
            Process(Receiver(prefix, gelf), c.ns, c.data)
            == Outcome(Receiver(f.state, StateAt(gelf, evs, |evs|)), c.ns, Ok(Outputs(gelf, evs, |evs|)))
  {
    var f := LengthPrefix.Feed(prefix, c.data);
    FlatMapSingle(LengthPrefixed(prefix), c.ns, c.data);
    GelfFlatMap(gelf, c.ns, f.out, |f.out|);
    assert f.out[..|f.out|] == f.out;
    FoldTwo(LengthPrefixed(prefix), GelfChunking(gelf), c.ns, [c.data]);
  }

  /** The receiving chain is the length decoder followed by one run of the GELF receiver. */
  lemma {:induction false} ReceiveRun(prefix: Framing.State, gelf: Gelf.State, calls: seq<Call>)
    requires Parsable(LengthPrefix.FeedAll(prefix, Datas(calls)).out)
    ensures var evs := Arrivals(prefix, calls);
            ReceiveAll(Receiver(prefix, gelf), calls)
            == Received(Receiver(LengthPrefix.FeedAll(prefix, Datas(calls)).state, StateAt(gelf, evs, |evs|)),
                        true, Outputs(gelf, evs, |evs|))
    decreases calls
  {
    if calls != [] {
      var first := LengthPrefix.Feed(prefix, calls[0].data);
      FeedAllCons(prefix, calls);
      ReceiveOne(prefix, gelf, calls[0]);
      var evs := EventsOf(calls[0].ns, first.out);
      ReceiveRun(first.state, StateAt(gelf, evs, |evs|), calls[1..]);
      TwoParts(gelf, Arrivals(prefix, calls), evs, Arrivals(first.state, calls[1..]));
    }
  }

  // ---------------------------------------------------------------- one message after the other

  predicate Empty(s: Gelf.State) {
    s.buffer == map[] && s.lastBuffer == map[]
  }

  /** Chunks of the same message are at most five seconds apart. */
  predicate Punctual(evs: seq<Event>) {
    forall i, j :: 0 <= i < j < |evs| && evs[i].msg.id == evs[j].msg.id ==> evs[j].ns <= evs[i].ns + Gelf.FIVE_SEC
  }

  predicate Carries(evs: seq<Event>, segments: seq<Gelf.Segment>) {
    |evs| == |segments| && forall i :: 0 <= i < |evs| ==> evs[i].msg == segments[i]
  }

  lemma CarriesParts(evs: seq<Event>, x: seq<Gelf.Segment>, y: seq<Gelf.Segment>)
    requires Carries(evs, x + y)
    ensures evs == evs[..|x|] + evs[|x|..] && Carries(evs[..|x|], x) && Carries(evs[|x|..], y)
  {
    forall i | 0 <= i < |y| ensures evs[|x|..][i].msg == y[i] {
      assert evs[|x| + i].msg == (x + y)[|x| + i];
    }
    forall i | 0 <= i < |x| ensures evs[i].msg == x[i] {
      assert evs[i].msg == (x + y)[i];
    }
  }

  lemma {:induction false} OnlyLast(s: Gelf.State, evs: seq<Event>, k: nat)
    requires k <= |evs| && forall i :: 0 <= i < |evs| - 1 ==> OutAt(s, evs, i) == None
    ensures k < |evs| ==> Outputs(s, evs, k) == []
    ensures k == |evs| > 0 ==>
              Outputs(s, evs, k) == if OutAt(s, evs, k - 1).Some? then [OutAt(s, evs, k - 1).value] else []
  {
    if k > 0 {
      OnlyLast(s, evs, k - 1);
    }
  }

  lemma {:induction false} OthersAbsent(s: Gelf.State, evs: seq<Event>, k: nat, id: u64)
    requires Gelf.Valid(s) && k <= |evs| && ViewOf(s, id).Absent?
    requires forall i :: 0 <= i < |evs| ==> !Mine(evs[i], id)
    ensures ViewOf(StateAt(s, evs, k), id).Absent?
  {
    if k > 0 {
      OthersAbsent(s, evs, k - 1, id);
      RunValid(s, evs, k - 1);
      Isolation(StateAt(s, evs, k - 1), evs[k - 1], id);
    }
  }

  /** The chunks of one message, in order and undisturbed, bring it out and leave nothing behind. */
  lemma OneMessage(s: Gelf.State, id: u64, chunkSize: ChunkSize, data: Bytes, evs: seq<Event>)
    requires Empty(s) && Monotone(s, evs) && Punctual(evs)
    requires GelfWire.Encode(id, chunkSize, data).Ok?
    requires Carries(evs, Segments(id, chunkSize, data))
    ensures Outputs(s, evs, |evs|) == if data == [] then [] else [data]
    ensures Empty(StateAt(s, evs, |evs|))
  {
    var size: nat := chunkSize - GelfWire.HEADER;
    var chunks := GelfWire.Chunks(data, size);
    var n := |chunks|;
    GelfWire.ChunksFlatten(data, size);
    if n == 1 {
      assert chunks == [data] by {
        assert Flatten(chunks) == chunks[0] + Flatten(chunks[1..]);
        assert chunks[1..] == [];
      }
      SingleChunk(s, evs, data);
    } else if n >= 2 {
      ManyChunks(s, id, chunks, evs);
    }
  }

  lemma SingleChunk(s: Gelf.State, evs: seq<Event>, data: Bytes)
    requires Empty(s) && |evs| == 1 && evs[0].msg.count == 1 && evs[0].msg.data == data
    ensures Outputs(s, evs, 1) == [data] && Empty(StateAt(s, evs, 1))
  {
    assert StateAt(s, evs, 0) == s;
    assert StateAt(s, evs, 1) == Gelf.Accept(s, evs[0].ns, evs[0].msg).state;
    assert Outputs(s, evs, 1) == Outputs(s, evs, 0) + [data];
  }

  lemma ManyChunks(s: Gelf.State, id: u64, chunks: seq<Bytes>, evs: seq<Event>)
    requires Empty(s) && Monotone(s, evs) && Punctual(evs)
    requires 2 <= |chunks| == |evs| <= 255
    requires forall i :: 0 <= i < |evs| ==> evs[i].msg == Gelf.Segment(id, i, |chunks|, chunks[i])
    ensures Outputs(s, evs, |evs|) == [Flatten(chunks)]
    ensures Empty(StateAt(s, evs, |evs|))
  {
    var n := |chunks|;
    forall q | 0 <= q < n ensures Has(evs, n, id, q) {
      assert Mine(evs[q], id) && evs[q].msg.seqNo == q;
    }
    assert Delivers(evs, id, chunks);
    Reassembles(s, evs, id, chunks);
    forall i | 0 <= i < n ensures OutAt(s, evs, i) == if i < n - 1 then None else Some(Flatten(chunks)) {
      assert Mine(evs[i], id) && Mine(evs[n - 1], id);
    }
    OnlyLast(s, evs, n);
    NothingLeft(s, evs, id);
  }

  lemma NothingLeft(s: Gelf.State, evs: seq<Event>, id: u64)
    requires Empty(s) && forall i :: 0 <= i < |evs| ==> evs[i].msg.id == id
    requires ViewOf(StateAt(s, evs, |evs|), id).Absent?
    ensures Empty(StateAt(s, evs, |evs|))
  {
    var t := StateAt(s, evs, |evs|);
    forall k: u64 ensures k !in t.buffer && k !in t.lastBuffer {
      if k != id {
        OthersAbsent(s, evs, |evs|, k);
      }
    }
  }

  lemma MonotoneParts(s: Gelf.State, a: seq<Event>, b: seq<Event>)
    requires Monotone(s, a + b) && Gelf.Valid(s)
    ensures Monotone(s, a) && Monotone(StateAt(s, a, |a|), b)
    ensures Punctual(a + b) ==> Punctual(a) && Punctual(b)
  {
    var all := a + b;
    assert forall i :: 0 <= i < |a| ==> all[i] == a[i];
    assert forall i :: 0 <= i < |b| ==> all[|a| + i] == b[i];
    forall i | 0 <= i < |b| ensures StateAt(s, a, |a|).lastSwap <= b[i].ns {
      assert s.lastSwap <= all[|a| + i].ns;
      LastSwapPast(s, a, |a|, b[i].ns);
    }
  }

  lemma {:induction false} Messages(s: Gelf.State, id: u64, chunkSize: ChunkSize, calls: seq<Call>, evs: seq<Event>)
    requires Empty(s) && Encodable(chunkSize, calls) && Monotone(s, evs) && Punctual(evs)
    requires Carries(evs, AllSegments(id, chunkSize, calls))
    ensures Outputs(s, evs, |evs|) == NonEmpty(Datas(calls))
    ensures Empty(StateAt(s, evs, |evs|))
    decreases calls
  {
    if calls != [] {
      EncodableParts(chunkSize, calls);
      var mine := Segments(id, chunkSize, calls[0].data);
      CarriesParts(evs, mine, AllSegments(Next(id), chunkSize, calls[1..]));
      var a, b := evs[..|mine|], evs[|mine|..];
      MonotoneParts(s, a, b);
      OneMessage(s, id, chunkSize, calls[0].data, a);
      Messages(StateAt(s, a, |a|), Next(id), chunkSize, calls[1..], b);
      TwoParts(s, evs, a, b);
    }
  }

  lemma {:induction false} ArrivalTimes(prefix: Framing.State, calls: seq<Call>)
    requires Parsable(LengthPrefix.FeedAll(prefix, Datas(calls)).out)
    requires forall i, j :: 0 <= i <= j < |calls| ==> calls[i].ns <= calls[j].ns
    ensures Monotone(Gelf.INITIAL, Arrivals(prefix, calls))
    ensures calls != [] ==>
              forall i :: 0 <= i < |Arrivals(prefix, calls)| ==> calls[0].ns <= Arrivals(prefix, calls)[i].ns
    decreases calls
  {
    if calls != [] {
      var first := LengthPrefix.Feed(prefix, calls[0].data);
      FeedAllCons(prefix, calls);
      ArrivalTimes(first.state, calls[1..]);
      var evs, rest := EventsOf(calls[0].ns, first.out), Arrivals(first.state, calls[1..]);
      if calls[1..] != [] {
        assert calls[1..][0] == calls[1];
      } else {
        assert rest == [];
      }
    }
  }

  /** The receiver parses everything the sender's datagrams become. */
  lemma WireDecodes(id: u64, chunkSize: ChunkSize, sent: seq<Call>, received: seq<Call>)
    requires chunkSize < TWO_64
    requires Flatten(Datas(received)) == SendAll(Sender(id, chunkSize), sent)
    ensures LengthPrefix.FeedAll(Framing.INITIAL, Datas(received))
         == LengthPrefix.Fed(AllDatagrams(id, chunkSize, Accepted(chunkSize, sent)), Framing.INITIAL)
    ensures Parsable(AllDatagrams(id, chunkSize, Accepted(chunkSize, sent)))
  {
    var accepted := Accepted(chunkSize, sent);
    var ds := AllDatagrams(id, chunkSize, accepted);
    SentWire(id, chunkSize, sent);
    DatagramsParse(id, chunkSize, accepted);
    LengthPrefix.RoundTrip(ds, Datas(received));
  }

  /** The bytes of a sender, cut into pieces that arrive at non-decreasing times, such that the chunks of no
      single message are more than five seconds apart. */
  ghost predicate Prompt(id: u64, chunkSize: ChunkSize, sent: seq<Call>, received: seq<Call>) {
    && Flatten(Datas(received)) == SendAll(Sender(id, chunkSize), sent)
    && (forall i, j :: 0 <= i <= j < |received| ==> received[i].ns <= received[j].ns)
    && Parsable(LengthPrefix.FeedAll(Framing.INITIAL, Datas(received)).out)
    && Punctual(Arrivals(Framing.INITIAL, received))
  }

  /** End to end: then every call succeeds and together they return the non-empty messages that were
      accepted, in order and unchanged, and the receiver ends with nothing pending. */
  lemma {:induction false} ChainRoundTrip(id: u64, chunkSize: ChunkSize, sent: seq<Call>, received: seq<Call>)
    requires chunkSize < TWO_64 && Prompt(id, chunkSize, sent, received)
    ensures var r := ReceiveAll(Receiver(Framing.INITIAL, Gelf.INITIAL), received);
            r.ok && r.out == NonEmpty(Datas(Accepted(chunkSize, sent)))
            && |r.stages| == 2 && r.stages[0] == LengthPrefixed(Framing.INITIAL)
            && r.stages[1].GelfChunking? && Empty(r.stages[1].gelf)
  {
    var accepted := Accepted(chunkSize, sent);
    WireDecodes(id, chunkSize, sent, received);
    var evs := Arrivals(Framing.INITIAL, received);
    DatagramsParse(id, chunkSize, accepted);
    ArrivalsAre(Framing.INITIAL, received);
    ArrivalTimes(Framing.INITIAL, received);
    Messages(Gelf.INITIAL, id, chunkSize, accepted, evs);
    ReceiveRun(Framing.INITIAL, Gelf.INITIAL, received);
  }
}
