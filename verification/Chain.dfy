/** Chains of stages: `preprocess` and `postprocess` push lists of byte strings from stage to stage. */
module Chain {
  import opened Base
  import Framing
  import BigEndian
  import LengthPrefix
  import TextualLength
  import Lines
  import Gelf
  import GelfWire

  datatype Error = BadGelfHeader(GelfWire.HeaderError) | BadTextualLength | LineTooLong | NoIngestTime
                 | TooManyChunks

  type ChunkSize = n: nat | n > GelfWire.HEADER witness GelfWire.DEFAULT_CHUNK_SIZE

  /** A preprocessor or a postprocessor, with its state. */
  datatype Stage =
    // on the way in
    | LengthPrefixed(prefix: Framing.State)
    | TextualLengthPrefixed(textual: Framing.State)
    | LineSplitting(config: Lines.Config, rest: Bytes)
    | GelfChunking(gelf: Gelf.State)
    | RemoveEmpty
    | ExtractIngestNs
    // on the way out
    | PutLengthPrefix
    | PutTextualLength
    | PutNewline
    | PutGelfChunks(id: u64, chunkSize: ChunkSize)
    | AttachIngestNs

  /** Outcome of running something with state `S`: the state it leaves, the possibly rewritten
      ingest time, and the messages or the error. */
  datatype Outcome<S> = Outcome(after: S, ns: u64, result: Result<seq<Bytes>, Error>)

  function TimestampOf(bytes: Bytes): u64
    requires |bytes| == 8
  {
    BigEndian.EncodeDecode(bytes);
    BigEndian.Widths();
    BigEndian.Decode(bytes)
  }

  /** One stage on one byte string. */
  function Apply(stage: Stage, ns: u64, data: Bytes): Outcome<Stage> {
    match stage
    case LengthPrefixed(s) =>
      var f := LengthPrefix.Feed(s, data);
      Outcome(LengthPrefixed(f.state), ns, Ok(f.out))
    case TextualLengthPrefixed(s) =>
      var f := TextualLength.Feed(s, data);
      Outcome(TextualLengthPrefixed(f.state), ns, if f.failed then Err(BadTextualLength) else Ok(f.out))
    case LineSplitting(c, rest) =>
      var f := Lines.Feed(c, rest, data);
      Outcome(LineSplitting(c, f.buffer), ns, if f.result.Err? then Err(LineTooLong) else Ok(f.result.value))
    case GelfChunking(s) =>
      // The random id of an uncompressed message is never looked at: such a message has one chunk.
      var (t, r) := GelfWire.Process(s, ns, data, 0);
      Outcome(GelfChunking(t), ns, if r.Err? then Err(BadGelfHeader(r.error)) else Ok(r.value))
    case RemoveEmpty =>
      Outcome(stage, ns, Ok(if data == [] then [] else [data]))
    case ExtractIngestNs =>
      if |data| >= 8 then Outcome(stage, TimestampOf(data[..8]), Ok([data[8..]]))
      else Outcome(stage, ns, Err(NoIngestTime))
    case PutLengthPrefix => Outcome(stage, ns, Ok([LengthPrefix.Frame(data)]))
    case PutTextualLength => Outcome(stage, ns, Ok([TextualLength.Frame(data)]))
    case PutNewline => Outcome(stage, ns, Ok([Lines.Frame(data)]))
    case AttachIngestNs => Outcome(stage, ns, Ok([BigEndian.Encode(ns, 8) + data]))
    case PutGelfChunks(id, chunkSize) =>
      var r := GelfWire.Encode(id, chunkSize, data);
      Outcome(PutGelfChunks(GelfWire.NextId(id, r), chunkSize), ns,
              if r.Err? then Err(TooManyChunks) else Ok(r.value))
  }

  /** One stage on a list: a stateful flat-map that stops at the first error. */
  function FlatMap(stage: Stage, ns: u64, items: seq<Bytes>): Outcome<Stage>
    decreases items
  {
    if items == [] then Outcome(stage, ns, Ok([]))
    else
      var first := Apply(stage, ns, items[0]);
      if first.result.Err? then first
      else
        var more := FlatMap(first.after, first.ns, items[1..]);
        if more.result.Err? then more
        else Outcome(more.after, more.ns, Ok(first.result.value + more.result.value))
  }

  /** A whole chain: the fold of its flat-maps. Stages after a failing one are not touched. */
  function Fold(stages: seq<Stage>, ns: u64, items: seq<Bytes>): Outcome<seq<Stage>>
    decreases stages
  {
    if stages == [] then Outcome([], ns, Ok(items))
    else
      var first := FlatMap(stages[0], ns, items);
      if first.result.Err? then Outcome([first.after] + stages[1..], first.ns, Err(first.result.error))
      else
        var more := Fold(stages[1..], first.ns, first.result.value);
        Outcome([first.after] + more.after, more.ns, more.result)
  }

  function Process(stages: seq<Stage>, ns: u64, data: Bytes): Outcome<seq<Stage>> {
    Fold(stages, ns, [data])
  }

  lemma {:induction false} FlatMapSplit(stage: Stage, ns: u64, items: seq<Bytes>, i: nat)
    requires i <= |items|
    ensures var first := FlatMap(stage, ns, items[..i]);
            FlatMap(stage, ns, items)
            == if first.result.Err? then first
               else var more := FlatMap(first.after, first.ns, items[i..]);
                    if more.result.Err? then more
                    else Outcome(more.after, more.ns, Ok(first.result.value + more.result.value))
    decreases i
  {
    if i == 0 {
      assert items[..0] == [] && items[0..] == items;
      var all := FlatMap(stage, ns, items);
      if all.result.Ok? { assert [] + all.result.value == all.result.value; }
    } else {
      var one := Apply(stage, ns, items[0]);
      assert items[..i][0] == items[0] && items[..i][1..] == items[1..][..i - 1];
      assert items[1..][i - 1..] == items[i..];
      if one.result.Ok? {
        FlatMapSplit(one.after, one.ns, items[1..], i - 1);
        var first := FlatMap(one.after, one.ns, items[1..][..i - 1]);
        if first.result.Ok? {
          var more := FlatMap(first.after, first.ns, items[i..]);
          if more.result.Ok? {
            Assoc(one.result.value, first.result.value, more.result.value);
          }
        }
      }
    }
  }

  lemma FlatMapNext(stage: Stage, ns: u64, items: seq<Bytes>, i: nat)
    requires i < |items| && FlatMap(stage, ns, items[..i]).result.Ok?
    ensures var first := FlatMap(stage, ns, items[..i]);
            var one := Apply(first.after, first.ns, items[i]);
            if one.result.Err? then
              FlatMap(stage, ns, items) == one && FlatMap(stage, ns, items[..i + 1]) == one
            else FlatMap(stage, ns, items[..i + 1])
                 == Outcome(one.after, one.ns, Ok(first.result.value + one.result.value))
  {
    var first := FlatMap(stage, ns, items[..i]);
    FlatMapSplit(stage, ns, items, i);
    assert items[i..][0] == items[i] && items[i..][1..] == items[i + 1..];
    FlatMapSplit(stage, ns, items[..i + 1], i);
    assert items[..i + 1][..i] == items[..i] && items[..i + 1][i..] == [items[i]];
    var one := Apply(first.after, first.ns, items[i]);
    var rest: seq<Bytes> := [items[i]][1..];
    assert rest == [];
    if one.result.Ok? { assert one.result.value + [] == one.result.value; }
  }

  /** Running the first `k` stages and then the others. */
  lemma {:induction false} FoldStep(stages: seq<Stage>, k: nat, ns: u64, items: seq<Bytes>)
    requires k < |stages| && Fold(stages[..k], ns, items).result.Ok?
    ensures var first := Fold(stages[..k], ns, items);
            var one := FlatMap(stages[k], first.ns, first.result.value);
            if one.result.Err? then
              Fold(stages, ns, items)
              == Outcome(first.after + [one.after] + stages[k + 1..], one.ns, Err(one.result.error))
            else Fold(stages[..k + 1], ns, items) == Outcome(first.after + [one.after], one.ns, one.result)
    decreases k
  {
    var first := Fold(stages[..k], ns, items);
    if k == 0 {
      assert stages[..0] == [];
      assert stages[..1][1..] == [] && stages[..1][0] == stages[0];
      var one := FlatMap(stages[0], ns, items);
      assert [] + [one.after] == [one.after] && [one.after] + [] == [one.after];
    } else {
      var head := FlatMap(stages[0], ns, items);
      var tail := stages[1..];
      assert stages[..k][0] == stages[0] && stages[..k][1..] == tail[..k - 1];
      assert stages[..k + 1][0] == stages[0] && stages[..k + 1][1..] == tail[..k];
      FoldStep(tail, k - 1, head.ns, head.result.value);
      var inner := Fold(tail[..k - 1], head.ns, head.result.value);
      var one := FlatMap(stages[k], inner.ns, inner.result.value);
      assert tail[k..] == stages[k + 1..];
      Assoc([head.after], inner.after, [one.after]);
      Assoc([head.after], inner.after + [one.after], stages[k + 1..]);
    }
  }

  /** The inner loop: stage `k`, updated in place, over one list. */
  method RunStage(stages: array<Stage>, k: nat, ingestNs: u64, data: seq<Bytes>)
    returns (ns: u64, res: Result<seq<Bytes>, Error>)
    requires k < stages.Length
    modifies stages
    ensures Outcome(stages[k], ns, res) == FlatMap(old(stages[k]), ingestNs, data)
    ensures stages[..] == old(stages[..])[k := stages[k]]
  {
    ns := ingestNs;
    var data1 := [];
    ghost var stage := stages[k];
    var i := 0;
    while i < |data|
      invariant 0 <= i <= |data|
      invariant FlatMap(stage, ingestNs, data[..i]) == Outcome(stages[k], ns, Ok(data1))
      invariant forall j :: 0 <= j < stages.Length && j != k ==> stages[j] == old(stages[j])
    {
      FlatMapNext(stage, ingestNs, data, i);
      var one := Apply(stages[k], ns, data[i]);
      stages[k], ns := one.after, one.ns;
      if one.result.Err? {
        return ns, Err(one.result.error);
      }
      data1 := data1 + one.result.value;
      i := i + 1;
    }
    assert data[..i] == data;
    res := Ok(data1);
  }

  /** `preprocess` and `postprocess`: two lists, swapped after every stage, over stages that are
      updated in place. Only a stage on the way in rewrites the ingest time. */
  method RunChain(stages: array<Stage>, ingestNs: u64, input: Bytes)
    returns (ns: u64, res: Result<seq<Bytes>, Error>)
    modifies stages
    ensures Outcome(stages[..], ns, res) == Process(old(stages[..]), ingestNs, input)
  {
    ns := ingestNs;
    var data, data1 := [input], [];
    ghost var was := stages[..];
    var k := 0;
    assert was[..0] == [] && stages[..0] == [];
    while k < stages.Length
      invariant 0 <= k <= stages.Length
      invariant Fold(was[..k], ingestNs, [input]) == Outcome(stages[..k], ns, Ok(data))
      invariant stages[k..] == was[k..]
    {
      ghost var now := stages[..];
      assert now[k] == stages[k..][0] == was[k..][0] == was[k];
      FoldStep(was, k, ingestNs, [input]);
      var r;
      ns, r := RunStage(stages, k, ns, data);
      assert stages[..k] == now[..k] && stages[k + 1..] == now[k + 1..] == now[k..][1..] == was[k + 1..];
      if r.Err? {
        assert stages[..] == stages[..k] + [stages[k]] + stages[k + 1..];
        return ns, r;
      }
      data1 := r.value;
      data, data1 := data1, data;
      assert stages[..k + 1] == stages[..k] + [stages[k]];
      k := k + 1;
    }
    assert was[..k] == was && stages[..k] == stages[..];
    res := Ok(data);
  }

  /** The ingest time travels through a chain unchanged: what the one side attaches the other takes. */
  lemma IngestTimeRoundTrip(ns: u64, other: u64, data: Bytes)
    ensures var sent := FlatMap(AttachIngestNs, ns, [data]);
            sent.result.Ok?
            && FlatMap(ExtractIngestNs, other, sent.result.value) == Outcome(ExtractIngestNs, ns, Ok([data]))
  {
    var header := BigEndian.Encode(ns, 8);
    var wire: seq<Bytes> := [header + data];
    assert [data][1..] == [] && wire[1..] == [] && wire + [] == wire && [data] + [] == [data];
    Halves(header, data);
    BigEndian.Widths();
    BigEndian.DecodeEncode(ns, 8);
  }
}
