/** Exactly which messages come out at the far end of the chain `gelf-chunking`, `length-prefixed`. */
module ExactChain {
  import opened Base
  import Framing
  import opened EndToEnd
  import opened GelfReassembly
  import Chain
  import Gelf
  import GelfWire
  import LengthPrefix

  // ---------------------------------------------------------------- which messages are expected

  /** The message with `n` chunks, the first of which is event `from`, comes out: it has one chunk, or its
      last chunk is not separated by two swaps from any of the others. */
  ghost predicate ComesOut(evs: seq<Event>, id: u64, n: nat, from: nat)
    requires from + n <= |evs|
  {
    n == 1 || (n >= 2 && InTime(Gelf.INITIAL, evs, id, from + n - 1))
  }

  /** The messages that come out, the chunks of the first being the events from `from` on. */
  ghost function Kept(evs: seq<Event>, id: u64, chunkSize: Chain.ChunkSize, calls: seq<Call>, from: nat): seq<Bytes>
    requires Encodable(chunkSize, calls) && from + |AllSegments(id, chunkSize, calls)| == |evs|
    decreases calls
  {
    if calls == [] then []
    else
      EncodableParts(chunkSize, calls);
      var n := |Segments(id, chunkSize, calls[0].data)|;
      (if ComesOut(evs, id, n, from) then [calls[0].data] else [])
      + Kept(evs, Next(id), chunkSize, calls[1..], from + n)
  }

  /** The last chunk of every message of several chunks arrives in time. */
  ghost predicate AllInTime(evs: seq<Event>, id: u64, chunkSize: Chain.ChunkSize, calls: seq<Call>, from: nat)
    requires Encodable(chunkSize, calls) && from + |AllSegments(id, chunkSize, calls)| == |evs|
    decreases calls
  {
    calls == [] ||
    (EncodableParts(chunkSize, calls);
     var n := |Segments(id, chunkSize, calls[0].data)|;
     && (n >= 2 ==> InTime(Gelf.INITIAL, evs, id, from + n - 1))
     && AllInTime(evs, Next(id), chunkSize, calls[1..], from + n))
  }

  /** A message makes no chunk exactly when it is empty. */
  lemma {:induction false} NoChunk(id: u64, chunkSize: Chain.ChunkSize, data: Bytes)
    requires GelfWire.Encode(id, chunkSize, data).Ok?
    ensures |Segments(id, chunkSize, data)| == 0 <==> data == []
  {
    GelfWire.ChunksFlatten(data, chunkSize - GelfWire.HEADER);
  }

  /** What is received is less than what was sent, or all of it, depending on whether all are in time. */
  predicate AllOrLess(got: seq<Bytes>, want: seq<Bytes>, all: bool) {
    if all then got == want else |got| < |want|
  }

  lemma {:induction false} AllOrLessAppend(a: seq<Bytes>, x: seq<Bytes>, p: bool, b: seq<Bytes>, y: seq<Bytes>, q: bool)
    requires AllOrLess(a, x, p) && AllOrLess(b, y, q)
    ensures AllOrLess(a + b, x + y, p && q)
  {
  }

  lemma FirstOrLess(evs: seq<Event>, id: u64, n: nat, data: Bytes, from: nat)
    requires from + n <= |evs| && (n == 0 <==> data == [])
    ensures AllOrLess(if ComesOut(evs, id, n, from) then [data] else [], if data == [] then [] else [data],
                      n >= 2 ==> InTime(Gelf.INITIAL, evs, id, from + n - 1))
  {
  }

  /** All messages come out exactly when all are in time. */
  lemma {:induction false} KeptAll(evs: seq<Event>, id: u64, chunkSize: Chain.ChunkSize, calls: seq<Call>, from: nat)
    requires Encodable(chunkSize, calls) && from + |AllSegments(id, chunkSize, calls)| == |evs|
    ensures AllOrLess(Kept(evs, id, chunkSize, calls, from), NonEmpty(Datas(calls)),
                      AllInTime(evs, id, chunkSize, calls, from))
    decreases calls
  {
    if calls != [] {
      KeptCons(evs, id, chunkSize, calls, from);
      InTimeCons(evs, id, chunkSize, calls, from);
      NonEmptyCons(calls);
      var data, n := calls[0].data, |Segments(id, chunkSize, calls[0].data)|;
      NoChunk(id, chunkSize, data);
      FirstOrLess(evs, id, n, data, from);
      KeptAll(evs, Next(id), chunkSize, calls[1..], from + n);
      AllOrLessAppend(if ComesOut(evs, id, n, from) then [data] else [], if data == [] then [] else [data],
                      n >= 2 ==> InTime(Gelf.INITIAL, evs, id, from + n - 1),
                      Kept(evs, Next(id), chunkSize, calls[1..], from + n), NonEmpty(Datas(calls[1..])),
                      AllInTime(evs, Next(id), chunkSize, calls[1..], from + n));
    }
  }

  lemma {:induction false} KeptCons(evs: seq<Event>, id: u64, chunkSize: Chain.ChunkSize, calls: seq<Call>, from: nat)
    requires calls != [] && Encodable(chunkSize, calls) && from + |AllSegments(id, chunkSize, calls)| == |evs|
    ensures GelfWire.Encode(id, chunkSize, calls[0].data).Ok? && Encodable(chunkSize, calls[1..])
    ensures var n := |Segments(id, chunkSize, calls[0].data)|;
            && from + n + |AllSegments(Next(id), chunkSize, calls[1..])| == |evs|
            && Kept(evs, id, chunkSize, calls, from)
               == (if ComesOut(evs, id, n, from) then [calls[0].data] else [])
                  + Kept(evs, Next(id), chunkSize, calls[1..], from + n)
  {
    EncodableParts(chunkSize, calls);
  }

  lemma {:induction false} InTimeCons(evs: seq<Event>, id: u64, chunkSize: Chain.ChunkSize, calls: seq<Call>, from: nat)
    requires calls != [] && Encodable(chunkSize, calls) && from + |AllSegments(id, chunkSize, calls)| == |evs|
    requires GelfWire.Encode(id, chunkSize, calls[0].data).Ok? && Encodable(chunkSize, calls[1..])
    ensures var n := |Segments(id, chunkSize, calls[0].data)|;
            AllInTime(evs, id, chunkSize, calls, from)
            == ((n >= 2 ==> InTime(Gelf.INITIAL, evs, id, from + n - 1))
                && AllInTime(evs, Next(id), chunkSize, calls[1..], from + n))
  {
  }

  lemma NonEmptyCons(calls: seq<Call>)
    requires calls != []
    ensures NonEmpty(Datas(calls))
         == (if calls[0].data == [] then [] else [calls[0].data]) + NonEmpty(Datas(calls[1..]))
  {
    assert Datas(calls)[0] == calls[0].data && Datas(calls)[1..] == Datas(calls[1..]);
  }

  // ---------------------------------------------------------------- ids

  /** `x` is one of the `n` ids from `id` on. */
  predicate Numbered(x: u64, id: u64, n: nat) {
    (x - id) % TWO_64 < n
  }

  lemma NumberedNext(x: u64, id: u64, n: nat)
    requires n > 0
    ensures Numbered(x, id, n) <==> x == id || Numbered(x, Next(id), n - 1)
  {
  }

  lemma NotAgain(id: u64, n: nat)
    requires 0 < n <= TWO_64
    ensures !Numbered(id, Next(id), n - 1)
  {
  }

  lemma {:induction false} SegmentsNumbered(id: u64, chunkSize: Chain.ChunkSize, calls: seq<Call>)
    requires Encodable(chunkSize, calls)
    ensures forall i | 0 <= i < |AllSegments(id, chunkSize, calls)| ::
              Numbered(AllSegments(id, chunkSize, calls)[i].id, id, |calls|)
    decreases calls
  {
    if calls != [] {
      EncodableParts(chunkSize, calls);
      SegmentsNumbered(Next(id), chunkSize, calls[1..]);
      var first, rest := Segments(id, chunkSize, calls[0].data), AllSegments(Next(id), chunkSize, calls[1..]);
      var all: seq<Gelf.Segment> := first + rest;
      forall i | 0 <= i < |all| ensures Numbered(all[i].id, id, |calls|) {
        NumberedNext(all[i].id, id, |calls|);
        assert all[i] == if i < |first| then first[i] else rest[i - |first|];
      }
    }
  }

  // ---------------------------------------------------------------- one message

  /** The events from `from` on are these segments. */
  predicate Sits(evs: seq<Event>, segments: seq<Gelf.Segment>, from: nat) {
    from + |segments| <= |evs| && forall i | 0 <= i < |segments| :: evs[from + i].msg == segments[i]
  }

  lemma {:induction false} SitsParts(evs: seq<Event>, x: seq<Gelf.Segment>, y: seq<Gelf.Segment>, from: nat)
    requires Sits(evs, x + y, from)
    ensures Sits(evs, x, from) && Sits(evs, y, from + |x|)
  {
    forall i | 0 <= i < |x| ensures evs[from + i].msg == x[i] {
      assert (x + y)[i] == x[i];
    }
    forall i | 0 <= i < |y| ensures evs[from + |x| + i].msg == y[i] {
      var k := |x| + i;
      assert (x + y)[k] == y[i] && evs[from + k].msg == (x + y)[k];
    }
  }

  /** No event outside this range carries the id. */
  predicate Alone(evs: seq<Event>, id: u64, from: nat, n: nat) {
    forall i | 0 <= i < |evs| && (i < from || from + n <= i) :: evs[i].msg.id != id
  }

  lemma {:induction false} QuietOutputs(s: Gelf.State, evs: seq<Event>, a: nat, b: nat)
    requires a <= b <= |evs| && forall k: nat | a <= k < b :: OutAt(s, evs, k) == None
    ensures Outputs(s, evs, b) == Outputs(s, evs, a)
    decreases b
  {
    if a < b {
      QuietOutputs(s, evs, a, b - 1);
    }
  }

  /** The chunks of a message, where nothing else uses its id, deliver it. */
  lemma {:induction false} MineWhere(evs: seq<Event>, id: u64, chunks: seq<Bytes>, from: nat)
    requires 2 <= |chunks| <= 255 && Alone(evs, id, from, |chunks|)
    requires Sits(evs, SegmentsOf(id, chunks), from)
    ensures Delivers(evs, id, chunks)
    ensures forall i | 0 <= i < |evs| :: Mine(evs[i], id) <==> from <= i < from + |chunks|
  {
    var n := |chunks|;
    var segments := SegmentsOf(id, chunks);
    forall i | from <= i < from + n ensures evs[i].msg == Gelf.Segment(id, i - from, n, chunks[i - from]) {
      assert evs[from + (i - from)].msg == segments[i - from];
    }
    forall q | 0 <= q < n ensures Has(evs, |evs|, id, q) {
      assert Mine(evs[from + q], id) && evs[from + q].msg.seqNo == q;
    }
  }

  /** What the chunks of one message bring out. */
  lemma {:induction false} MessageOut(evs: seq<Event>, id: u64, chunks: seq<Bytes>, from: nat)
    requires |chunks| <= 255 && Sits(evs, SegmentsOf(id, chunks), from) && Alone(evs, id, from, |chunks|)
    ensures Outputs(Gelf.INITIAL, evs, from + |chunks|)
         == Outputs(Gelf.INITIAL, evs, from) + (if ComesOut(evs, id, |chunks|, from) then [Flatten(chunks)] else [])
  {
    if |chunks| == 1 {
      assert chunks[1..] == [] && chunks[0] + [] == chunks[0] && Flatten(chunks) == chunks[0];
      assert SegmentsOf(id, chunks) == [Gelf.Segment(id, 0, 1, chunks[0])];
      OneOut(evs, Gelf.Segment(id, 0, 1, chunks[0]), from);
    } else if |chunks| >= 2 {
      ManyOut(evs, id, chunks, from);
    }
  }

  lemma {:induction false} DataOut(evs: seq<Event>, id: u64, chunkSize: Chain.ChunkSize, data: Bytes, from: nat)
    requires GelfWire.Encode(id, chunkSize, data).Ok?
    requires Sits(evs, Segments(id, chunkSize, data), from)
    requires Alone(evs, id, from, |Segments(id, chunkSize, data)|)
    ensures var n := |Segments(id, chunkSize, data)|;
            Outputs(Gelf.INITIAL, evs, from + n)
            == Outputs(Gelf.INITIAL, evs, from) + (if ComesOut(evs, id, n, from) then [data] else [])
  {
    var size: nat := chunkSize - GelfWire.HEADER;
    GelfWire.ChunksFlatten(data, size);
    MessageOut(evs, id, GelfWire.Chunks(data, size), from);
  }

  lemma {:induction false} OneOut(evs: seq<Event>, segment: Gelf.Segment, from: nat)
    requires Sits(evs, [segment], from) && segment.count == 1
    ensures Outputs(Gelf.INITIAL, evs, from + 1) == Outputs(Gelf.INITIAL, evs, from) + [segment.data]
  {
    assert evs[from + 0].msg == [segment][0];
  }

  lemma {:induction false} ManyOut(evs: seq<Event>, id: u64, chunks: seq<Bytes>, from: nat)
    requires 2 <= |chunks| <= 255 && Alone(evs, id, from, |chunks|)
    requires Sits(evs, SegmentsOf(id, chunks), from)
    ensures Outputs(Gelf.INITIAL, evs, from + |chunks|)
         == Outputs(Gelf.INITIAL, evs, from)
            + (if InTime(Gelf.INITIAL, evs, id, from + |chunks| - 1) then [Flatten(chunks)] else [])
  {
    var last: nat := from + |chunks| - 1;
    MineWhere(evs, id, chunks, from);
    forall k: nat | from <= k < last ensures OutAt(Gelf.INITIAL, evs, k) == None {
      assert Mine(evs[last], id);
      ReassembledExactly(Gelf.INITIAL, evs, id, chunks, k);
    }
    QuietOutputs(Gelf.INITIAL, evs, from, last);
    ReassembledExactly(Gelf.INITIAL, evs, id, chunks, last);
  }

  // ---------------------------------------------------------------- all messages

  /** The upcoming ids have not been used before event `from`. */
  ghost predicate Unused(evs: seq<Event>, id: u64, n: nat, from: nat)
    requires from <= |evs|
  {
    forall i | 0 <= i < from :: !Numbered(evs[i].msg.id, id, n)
  }

  lemma {:induction false} AloneThenUnused(evs: seq<Event>, id: u64, chunkSize: Chain.ChunkSize, calls: seq<Call>,
                                           from: nat)
    requires calls != [] && |calls| <= TWO_64 && Encodable(chunkSize, calls)
    requires GelfWire.Encode(id, chunkSize, calls[0].data).Ok? && Encodable(chunkSize, calls[1..])
    requires from <= |evs| && Unused(evs, id, |calls|, from)
    requires var segments := Segments(id, chunkSize, calls[0].data);
             && Sits(evs, segments, from)
             && Sits(evs, AllSegments(Next(id), chunkSize, calls[1..]), from + |segments|)
             && from + |segments| + |AllSegments(Next(id), chunkSize, calls[1..])| == |evs|
    ensures var n := |Segments(id, chunkSize, calls[0].data)|;
            Alone(evs, id, from, n) && Unused(evs, Next(id), |calls| - 1, from + n)
  {
    var segments, rest := Segments(id, chunkSize, calls[0].data), AllSegments(Next(id), chunkSize, calls[1..]);
    var n := |segments|;
    NotAgain(id, |calls|);
    SegmentsNumbered(Next(id), chunkSize, calls[1..]);
    forall i | 0 <= i < |evs| && (i < from || from + n <= i) ensures evs[i].msg.id != id {
      if i < from {
        NumberedNext(evs[i].msg.id, id, |calls|);
      } else {
        assert evs[from + n + (i - from - n)].msg == rest[i - from - n];
      }
    }
    forall i | 0 <= i < from + n ensures !Numbered(evs[i].msg.id, Next(id), |calls| - 1) {
      if i < from {
        NumberedNext(evs[i].msg.id, id, |calls|);
      } else {
        assert evs[from + (i - from)].msg == segments[i - from];
      }
    }
  }

  /** The first message: what it brings out, and that the others may follow. */
  lemma {:induction false} FirstMessage(evs: seq<Event>, id: u64, chunkSize: Chain.ChunkSize, calls: seq<Call>,
                                        from: nat)
    requires calls != [] && Encodable(chunkSize, calls) && |calls| <= TWO_64
    requires from + |AllSegments(id, chunkSize, calls)| == |evs| && Sits(evs, AllSegments(id, chunkSize, calls), from)
    requires Unused(evs, id, |calls|, from)
    ensures GelfWire.Encode(id, chunkSize, calls[0].data).Ok? && Encodable(chunkSize, calls[1..])
    ensures var n := |Segments(id, chunkSize, calls[0].data)|;
            var rest := AllSegments(Next(id), chunkSize, calls[1..]);
            && from + n + |rest| == |evs| && Sits(evs, rest, from + n) && Unused(evs, Next(id), |calls| - 1, from + n)
            && Outputs(Gelf.INITIAL, evs, from + n)
               == Outputs(Gelf.INITIAL, evs, from) + (if ComesOut(evs, id, n, from) then [calls[0].data] else [])
  {
    EncodableParts(chunkSize, calls);
    SitsParts(evs, Segments(id, chunkSize, calls[0].data), AllSegments(Next(id), chunkSize, calls[1..]), from);
    AloneThenUnused(evs, id, chunkSize, calls, from);
    DataOut(evs, id, chunkSize, calls[0].data, from);
  }

  lemma {:induction false} KeptRun(evs: seq<Event>, id: u64, chunkSize: Chain.ChunkSize, calls: seq<Call>, from: nat)
    requires Encodable(chunkSize, calls) && |calls| <= TWO_64
    requires from + |AllSegments(id, chunkSize, calls)| == |evs| && Sits(evs, AllSegments(id, chunkSize, calls), from)
    requires Unused(evs, id, |calls|, from)
    ensures Outputs(Gelf.INITIAL, evs, |evs|)
         == Outputs(Gelf.INITIAL, evs, from) + Kept(evs, id, chunkSize, calls, from)
    decreases calls
  {
    if calls != [] {
      FirstMessage(evs, id, chunkSize, calls, from);
      var n := |Segments(id, chunkSize, calls[0].data)|;
      KeptRun(evs, Next(id), chunkSize, calls[1..], from + n);
      Assoc(Outputs(Gelf.INITIAL, evs, from), if ComesOut(evs, id, n, from) then [calls[0].data] else [],
            Kept(evs, Next(id), chunkSize, calls[1..], from + n));
    }
  }

  /** The chain, exactly. Messages are chunked, length-prefixed and concatenated, those that are refused
      leaving no trace; the bytes are cut into arbitrary pieces that arrive at arbitrary times. Every call
      of the receiver succeeds, and together they return, in order and unchanged, the messages of one chunk
      and those whose last chunk is in time: all that were sent and are not empty, if and only if every
      message of several chunks is in time. */
  lemma {:induction false} ChainExactly(id: u64, chunkSize: Chain.ChunkSize, sent: seq<Call>, received: seq<Call>)
    requires chunkSize < TWO_64 && |sent| <= TWO_64
    requires Flatten(Datas(received)) == SendAll(Sender(id, chunkSize), sent)
    ensures Parsable(LengthPrefix.FeedAll(Framing.INITIAL, Datas(received)).out)
    ensures var accepted, evs := Accepted(chunkSize, sent), Arrivals(Framing.INITIAL, received);
            var r := ReceiveAll(Receiver(Framing.INITIAL, Gelf.INITIAL), received);
            && |evs| == |AllSegments(id, chunkSize, accepted)|
            && r.ok && r.out == Kept(evs, id, chunkSize, accepted, 0)
            && (r.out == NonEmpty(Datas(accepted)) <==> AllInTime(evs, id, chunkSize, accepted, 0))
  {
    var accepted := Accepted(chunkSize, sent);
    AcceptedFewer(chunkSize, sent);
    WireDecodes(id, chunkSize, sent, received);
    var evs := Arrivals(Framing.INITIAL, received);
    EventsAreSegments(id, chunkSize, accepted, received);
    ReceiveRun(Framing.INITIAL, Gelf.INITIAL, received);
    KeptRun(evs, id, chunkSize, accepted, 0);
    KeptAll(evs, id, chunkSize, accepted, 0);
  }

  lemma {:induction false} EventsAreSegments(id: u64, chunkSize: Chain.ChunkSize, accepted: seq<Call>,
                                             received: seq<Call>)
    requires Encodable(chunkSize, accepted)
    requires LengthPrefix.FeedAll(Framing.INITIAL, Datas(received)).out == AllDatagrams(id, chunkSize, accepted)
    requires Parsable(AllDatagrams(id, chunkSize, accepted))
    ensures var evs := Arrivals(Framing.INITIAL, received);
            |evs| == |AllSegments(id, chunkSize, accepted)| && Sits(evs, AllSegments(id, chunkSize, accepted), 0)
  {
    ArrivalsAre(Framing.INITIAL, received);
    DatagramsParse(id, chunkSize, accepted);
  }
}
