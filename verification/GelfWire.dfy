/** GELF chunks on the wire: the encoder, the header parser, and their agreement. */
module GelfWire {
  import opened Base
  import opened Gelf
  import opened GelfReassembly
  import BigEndian

  const HEADER: nat := 12
  const MAX_CHUNKS: nat := 128
  const DEFAULT_CHUNK_SIZE: nat := 8192

  // ---------------------------------------------------------------- header parser

  /** Why a datagram is no GELF chunk: its length, and its first two bytes if it has any. */
  datatype HeaderError = InvalidHeader(length: nat, start: Option<(byte, byte)>)

  /** The id as the parser adds it up from its eight bytes. */
  function IdOf(b: Bytes): nat
    requires |b| == 8
  {
    var n := (i: nat) requires i < 8 => b[i] as int;
    n(0) * 0x100_0000_0000_0000 + n(1) * 0x1_0000_0000_0000 + n(2) * 0x100_0000_0000
    + n(3) * 0x1_0000_0000 + n(4) * 0x100_0000 + n(5) * 0x1_0000 + n(6) * 0x100 + n(7)
  }

  /** `random` stands for the id drawn for the uncompressed Wayfair variant. */
  function ParseChunk(bin: Bytes, random: u64): Result<Segment, HeaderError> {
    if |bin| >= 2 && bin[0] == 0x1f && bin[1] == 0x3c then Ok(Segment(random, 0, 1, bin[2..]))
    else if |bin| >= HEADER && bin[0] == 0x1e && bin[1] == 0x0f then
      IdBytes(bin[2..10]);
      Ok(Segment(IdOf(bin[2..10]), bin[10], bin[11], bin[HEADER..]))
    else if |bin| >= 2 && bin[0] == 0x7b then Ok(Segment(0, 0, 1, bin))
    else if |bin| >= 2 then Err(InvalidHeader(|bin|, Some((bin[0], bin[1]))))
    else if |bin| == 1 then Err(InvalidHeader(1, Some((bin[0], 0))))
    else Err(InvalidHeader(0, None))
  }

  /** The sum of shifted bytes is the big-endian number. */
  lemma IdBytes(b: Bytes)
    requires |b| == 8
    ensures IdOf(b) == BigEndian.Decode(b) && IdOf(b) < TWO_64
  {
    Four(b[..4]);
    var n := (i: nat) requires i < 8 => b[i] as int;
    assert b[..5][..4] == b[..4] && b[..6][..5] == b[..5];
    assert b[..7][..6] == b[..6] && b[..8][..7] == b[..7] && b[..8] == b;
    var d := BigEndian.Decode(b[..4]);
    assert BigEndian.Decode(b[..5]) == d * 256 + n(4);
    assert BigEndian.Decode(b[..6]) == (d * 256 + n(4)) * 256 + n(5);
    assert BigEndian.Decode(b[..7]) == ((d * 256 + n(4)) * 256 + n(5)) * 256 + n(6);
  }

  lemma Four(b: Bytes)
    requires |b| == 4
    ensures BigEndian.Decode(b) == (b[0] as int) * 0x100_0000 + (b[1] as int) * 0x1_0000 + (b[2] as int) * 0x100 + b[3]
  {
    var n := (i: nat) requires i < 4 => b[i] as int;
    assert b[..1] == [b[0]] && b[..1][..0] == [];
    assert b[..2][..1] == b[..1] && b[..3][..2] == b[..2] && b[..4][..3] == b[..3] && b[..4] == b;
    assert BigEndian.Decode(b[..1]) == BigEndian.Decode([]) * 256 + n(0);
    assert BigEndian.Decode(b[..2]) == n(0) * 256 + n(1);
    assert BigEndian.Decode(b[..3]) == (n(0) * 256 + n(1)) * 256 + n(2);
  }

  /** One call of the non-TCP preprocessor. */
  function Process(s: State, ns: u64, bin: Bytes, random: u64): (State, Result<seq<Bytes>, HeaderError>) {
    match ParseChunk(bin, random)
    case Err(e) => (s, Err(e))
    case Ok(msg) =>
      var t := Accept(s, ns, msg);
      (t.state, Ok(if t.out.Some? then [t.out.value] else []))
  }

  // ---------------------------------------------------------------- encoder

  /** `slice::chunks`. */
  function Chunks(data: Bytes, size: nat): seq<Bytes>
    requires size > 0
  {
    if data == [] then []
    else if |data| <= size then [data]
    else [data[..size]] + Chunks(data[size..], size)
  }

  function EncodeChunk(id: u64, i: byte, n: byte, chunk: Bytes): Bytes {
    [0x1e, 0x0f] + BigEndian.Encode(id, 8) + [i, n] + chunk
  }

  /** The datagrams for a message, if they are not too many. */
  function Encode(id: u64, chunkSize: nat, data: Bytes): Result<seq<Bytes>, ()>
    requires chunkSize > HEADER
  {
    var chunks := Chunks(data, chunkSize - HEADER);
    var n := |chunks|;
    if n > MAX_CHUNKS then Err(())
    else Ok(seq(n, i requires 0 <= i < n => EncodeChunk(id, i, n, chunks[i])))
  }

  /** The id counter after a message: only an encoded message uses one up. */
  function NextId(id: u64, r: Result<seq<Bytes>, ()>): u64 {
    if r.Ok? then (id + 1) % TWO_64 else id
  }

  class Encoder {
    var id: u64
    const chunkSize: nat

    constructor (chunkSize: nat)
      ensures id == 0 && this.chunkSize == chunkSize
    {
      id := 0;
      this.chunkSize := chunkSize;
    }

    method EncodeGelf(data: Bytes) returns (res: Result<seq<Bytes>, ()>)
      requires chunkSize > HEADER
      modifies this
      ensures res == Encode(old(id), chunkSize, data)
      ensures id == NextId(old(id), res)
    {
      var chunks := Chunks(data, chunkSize - HEADER);
      var n := |chunks|;
      var used := id;
      if n > MAX_CHUNKS {
        return Err(());
      }
      id := (id + 1) % TWO_64;
      var datagrams: seq<Bytes> := [];
      for i := 0 to n
        invariant datagrams == seq(i, j requires 0 <= j < i => EncodeChunk(used, j, n, chunks[j]))
      {
        var buf: Bytes := [0x1e, 0x0f];
        buf := buf + BigEndian.Encode(used, 8);
        buf := buf + [i, n];
        buf := buf + chunks[i];
        datagrams := datagrams + [buf];
      }
      res := Ok(datagrams);
    }
  }

  // ---------------------------------------------------------------- agreement

  /** Chunking loses nothing and never makes an empty chunk. */
  lemma {:induction false} ChunksFlatten(data: Bytes, size: nat)
    requires size > 0
    ensures Flatten(Chunks(data, size)) == data
    ensures forall c :: c in Chunks(data, size) ==> 0 < |c| <= size
    ensures Chunks(data, size) == [] <==> data == []
  {
    if data == [] {
    } else if |data| <= size {
      assert Flatten([data]) == data + Flatten([]);
    } else {
      ChunksFlatten(data[size..], size);
      assert data == data[..size] + data[size..];
    }
  }

  /** A message needs as many datagrams as its length divided by the chunk payload, rounded up; so
      it is refused exactly when it is longer than 128 full chunks. */
  lemma {:induction false} ChunkCount(data: Bytes, size: nat, limit: nat)
    requires size > 0
    ensures |Chunks(data, size)| <= limit <==> |data| <= limit * size
  {
    if data == [] {
    } else if |data| <= size {
      if limit > 0 {
        assert limit * size == (limit - 1) * size + size;
      }
    } else if limit > 0 {
      ChunkCount(data[size..], size, limit - 1);
      assert limit * size == (limit - 1) * size + size;
    }
  }

  /** The parser undoes the encoder, whatever the chunk holds. */
  lemma ParseEncoded(id: u64, i: byte, n: byte, chunk: Bytes, random: u64)
    ensures ParseChunk(EncodeChunk(id, i, n, chunk), random) == Ok(Segment(id, i, n, chunk))
  {
    var e := BigEndian.Encode(id, 8);
    var bin := EncodeChunk(id, i, n, chunk);
    assert bin[2..10] == e;
    assert bin[10] == i && bin[11] == n;
    assert bin[HEADER..] == chunk;
    BigEndian.Widths();
    BigEndian.DecodeEncode(id, 8);
    IdBytes(e);
  }

  /** And nothing but the encoder's own output parses to a given multi-chunk segment. */
  lemma EncodeParsed(bin: Bytes, random: u64)
    requires ParseChunk(bin, random).Ok? && ParseChunk(bin, random).value.count != 1
    ensures var m := ParseChunk(bin, random).value;
            bin == EncodeChunk(m.id, m.seqNo, m.count, m.data)
  {
    IdBytes(bin[2..10]);
    BigEndian.EncodeDecode(bin[2..10]);
    assert bin == bin[..2] + bin[2..10] + [bin[10], bin[11]] + bin[HEADER..];
    assert bin[..2] == [0x1e, 0x0f];
  }

  /** The events are what the parser makes of the datagrams: the `q`th datagram of the message is
      event `pos[q]`, and no other event belongs to the message. */
  predicate Scattered(datagrams: seq<Bytes>, evs: seq<Event>, pos: seq<nat>, id: u64) {
    && |pos| == |datagrams|
    && (forall q :: 0 <= q < |pos| ==> pos[q] < |evs|)
    && (forall q {:trigger datagrams[q]} :: 0 <= q < |pos| ==> ParseChunk(datagrams[q], 0) == Ok(evs[pos[q]].msg))
    && (forall i :: 0 <= i < |evs| && Mine(evs[i], id) ==> i in pos)
    && (forall q, r :: 0 <= q < |pos| && 0 <= r < |pos| ==> evs[pos[q]].ns <= evs[pos[r]].ns + FIVE_SEC)
  }

  lemma ScatteredDelivers(id: u64, chunkSize: nat, data: Bytes, evs: seq<Event>, pos: seq<nat>)
    requires chunkSize > HEADER && Encode(id, chunkSize, data).Ok?
    requires Scattered(Encode(id, chunkSize, data).value, evs, pos, id)
    requires |pos| >= 2
    ensures Delivers(evs, id, Chunks(data, chunkSize - HEADER))
    ensures Prompt(evs, id) && Positions(evs, pos, id)
  {
    var chunks, datagrams := Chunks(data, chunkSize - HEADER), Encode(id, chunkSize, data).value;
    var n := |chunks|;
    forall q | 0 <= q < n ensures evs[pos[q]].msg == Segment(id, q, n, chunks[q]) {
      ParseEncoded(id, q, n, chunks[q], 0);
      assert datagrams[q] == EncodeChunk(id, q, n, chunks[q]);
    }
    forall i | 0 <= i < |evs| && Mine(evs[i], id) ensures exists q :: 0 <= q < n && pos[q] == i {
      assert i in pos;
    }
    forall q | 0 <= q < n ensures Has(evs, |evs|, id, q) {
      assert 0 <= pos[q] < |evs| && Mine(evs[pos[q]], id) && evs[pos[q]].msg.seqNo == q;
    }
  }

  /** Encoder to receiver: the datagrams of a message of two or more chunks may arrive in any order,
      scattered among any other chunks and across generation swaps; if none is later than five
      seconds after another, the message comes out unchanged at its last datagram and only there. */
  lemma {:induction false} ScatteredMessage(s: State, id: u64, chunkSize: nat, data: Bytes, evs: seq<Event>,
                                            pos: seq<nat>)
    requires Valid(s) && ViewOf(s, id).Absent? && Monotone(s, evs)
    requires chunkSize > HEADER && Encode(id, chunkSize, data).Ok? && |pos| >= 2
    requires Scattered(Encode(id, chunkSize, data).value, evs, pos, id)
    ensures forall q {:trigger pos[q]} :: 0 <= q < |pos| ==>
              OutAt(s, evs, pos[q]) == if exists r :: 0 <= r < |pos| && pos[r] > pos[q] then None
                                       else Some(data)
    ensures ViewOf(StateAt(s, evs, |evs|), id).Absent?
  {
    var chunks := Chunks(data, chunkSize - HEADER);
    ScatteredDelivers(id, chunkSize, data, evs, pos);
    ChunksFlatten(data, chunkSize - HEADER);
    ScatteredOut(s, evs, id, chunks, pos);
  }

  /** The positions of a message's chunks among the events: there and nowhere else. */
  predicate Positions(evs: seq<Event>, pos: seq<nat>, id: u64) {
    && (forall q :: 0 <= q < |pos| ==> pos[q] < |evs| && Mine(evs[pos[q]], id))
    && (forall i :: 0 <= i < |evs| && Mine(evs[i], id) ==> i in pos)
  }

  lemma {:induction false} ScatteredOut(s: State, evs: seq<Event>, id: u64, chunks: seq<Bytes>, pos: seq<nat>)
    requires Valid(s) && ViewOf(s, id).Absent? && Monotone(s, evs)
    requires Delivers(evs, id, chunks) && Prompt(evs, id) && Positions(evs, pos, id)
    ensures forall q {:trigger pos[q]} :: 0 <= q < |pos| ==>
              OutAt(s, evs, pos[q]) == if exists r :: 0 <= r < |pos| && pos[r] > pos[q] then None
                                       else Some(Flatten(chunks))
    ensures ViewOf(StateAt(s, evs, |evs|), id).Absent?
  {
    Reassembles(s, evs, id, chunks);
    forall q | 0 <= q < |pos|
      ensures OutAt(s, evs, pos[q]) == if exists r :: 0 <= r < |pos| && pos[r] > pos[q] then None
                                       else Some(Flatten(chunks))
    {
      LaterChunk(evs, pos, id, pos[q]);
    }
  }

  lemma LaterChunk(evs: seq<Event>, pos: seq<nat>, id: u64, k: nat)
    requires Positions(evs, pos, id)
    ensures (exists j :: k < j < |evs| && Mine(evs[j], id)) <==> exists r :: 0 <= r < |pos| && pos[r] > k
  {
    if j :| k < j < |evs| && Mine(evs[j], id) {
      assert j in pos;
    }
    if r :| 0 <= r < |pos| && pos[r] > k {
      assert k < pos[r] < |evs| && Mine(evs[pos[r]], id);
    }
  }

  // ---------------------------------------------------------------- two senders

  /** Every encoder counts its ids from 0, so the first messages of two senders share theirs. If both take
      two datagrams, the first of one and the second of the other come out as a message nobody sent. */
  lemma SendersMixed(t0: u64, t1: u64, chunkSize: nat, a: Bytes, b: Bytes, random: u64)
    requires chunkSize > HEADER
    requires chunkSize - HEADER < |a| <= 2 * (chunkSize - HEADER)
    requires chunkSize - HEADER < |b| <= 2 * (chunkSize - HEADER)
    ensures Encode(0, chunkSize, a).Ok? && |Encode(0, chunkSize, a).value| == 2
    ensures Encode(0, chunkSize, b).Ok? && |Encode(0, chunkSize, b).value| == 2
    ensures var first := Process(INITIAL, t0, Encode(0, chunkSize, a).value[0], random);
            && first.1 == Ok([])
            && Process(first.0, t1, Encode(0, chunkSize, b).value[1], random).1
               == Ok([a[..chunkSize - HEADER] + b[chunkSize - HEADER..]])
  {
    var size := chunkSize - HEADER;
    TwoDatagrams(0, chunkSize, a);
    TwoDatagrams(0, chunkSize, b);
    Mixed(t0, t1, 0, a[..size], b[size..], random);
  }

  /** The receiver's part of it. */
  lemma Mixed(t0: u64, t1: u64, id: u64, c0: Bytes, c1: Bytes, random: u64)
    ensures var first := Process(INITIAL, t0, EncodeChunk(id, 0, 2, c0), random);
            && first.1 == Ok([])
            && Process(first.0, t1, EncodeChunk(id, 1, 2, c1), random).1 == Ok([c0 + c1])
  {
    var m0, m1 := Segment(id, 0, 2, c0), Segment(id, 1, 2, c1);
    TwoChunksArrive(t0, t1, m0, m1);
    ParseEncoded(id, 0, 2, c0, random);
    ParseEncoded(id, 1, 2, c1, random);
  }

  lemma TwoChunksArrive(t0: u64, t1: u64, m0: Segment, m1: Segment)
    requires m0.id == m1.id && m0.count == 2 && m1.count == 2 && m0.seqNo == 0 && m1.seqNo == 1
    ensures var first := Accept(INITIAL, t0, m0);
            && first.out == None
            && Accept(first.state, t1, m1).out == Some(m0.data + m1.data)
  {
    var evs := [Event(t0, m0), Event(t1, m1)];
    SilenceKeepsChunks(t0, t1, m0.id, m0.data, m1.data);
    assert StateAt(INITIAL, evs, 1) == Accept(StateAt(INITIAL, evs, 0), t0, m0).state;
    Isolation(INITIAL, evs[0], m0.id);
  }

  lemma TwoDatagrams(id: u64, chunkSize: nat, data: Bytes)
    requires chunkSize > HEADER && chunkSize - HEADER < |data| <= 2 * (chunkSize - HEADER)
    ensures var size := chunkSize - HEADER;
            Encode(id, chunkSize, data)
            == Ok([EncodeChunk(id, 0, 2, data[..size]), EncodeChunk(id, 1, 2, data[size..])])
  {
    var size := chunkSize - HEADER;
    TwoChunks(data, size);
    var datagrams := Encode(id, chunkSize, data).value;
    assert datagrams == [EncodeChunk(id, 0, 2, data[..size]), EncodeChunk(id, 1, 2, data[size..])];
  }

  lemma TwoChunks(data: Bytes, size: nat)
    requires 0 < size < |data| <= 2 * size
    ensures Chunks(data, size) == [data[..size], data[size..]]
  {
    assert Chunks(data[size..], size) == [data[size..]];
  }
}
