/** The receiving side of GELF chunking: two generations of half-received messages, of which the
    older is thrown away at the first chunk that arrives more than five seconds after the last swap. */
module Gelf {
  import opened Base

  const FIVE_SEC: u64 := 5_000_000_000

  /** One chunk off the wire. */
  datatype Segment = Segment(id: u64, seqNo: byte, count: byte, data: Bytes)

  /** A message of which some chunks have arrived. */
  datatype Msgs = Msgs(count: byte, stored: byte, bytes: nat, segments: seq<Option<Bytes>>)

  datatype State = State(buffer: map<u64, Msgs>, lastBuffer: map<u64, Msgs>, lastSwap: u64)

  const INITIAL := State(map[], map[], 0)

  /** What a call returns, and the state it leaves. */
  datatype Step = Step(state: State, out: Option<Bytes>)

  /** Subtraction on 64 bits, as an optimised build performs it. */
  function Sub64(a: u64, b: u64): u64 { (a - b) % TWO_64 }

  predicate Swaps(s: State, ns: u64) {
    Sub64(ns, s.lastSwap) > FIVE_SEC
  }

  function Rotate(s: State, ns: u64): State {
    if Swaps(s, ns) then State(map[], s.buffer, ns) else s
  }

  predicate IsFree(m: Msgs, idx: nat) {
    idx < |m.segments| && m.segments[idx] == None
  }

  function Put(m: Msgs, idx: nat, data: Bytes): Msgs
    requires IsFree(m, idx)
  {
    Msgs(m.count, (m.stored + 1) % 256, m.bytes + |data|, m.segments[idx := Some(data)])
  }

  function Fresh(msg: Segment): Msgs
    requires msg.seqNo < msg.count
  {
    var empty := seq(msg.count, _ => None);
    Msgs(msg.count, 1, |msg.data|, empty[msg.seqNo := Some(msg.data)])
  }

  /** All segments in order; None if one is missing. */
  function Assembled(segments: seq<Option<Bytes>>): Option<Bytes> {
    if segments == [] then Some([])
    else if segments[0].None? then None
    else
      var rest := Assembled(segments[1..]);
      if rest.None? then None else Some(segments[0].value + rest.value)
  }

  /** A chunk for a message already in one of the maps: what becomes of its entry, and the message
      if that was the last chunk. A duplicate or out-of-range chunk discards the entry. */
  function Update(m: Msgs, msg: Segment): (Option<Msgs>, Option<Bytes>) {
    if !IsFree(m, msg.seqNo) then (None, None)
    else
      var m' := Put(m, msg.seqNo, msg.data);
      if m'.stored == m'.count then (None, Assembled(m'.segments)) else (Some(m'), None)
  }

  function Store(entries: map<u64, Msgs>, key: u64, m: Option<Msgs>): map<u64, Msgs> {
    if m.Some? then entries[key := m.value] else entries - {key}
  }

  /** One chunk arriving at time `ns`. */
  function Accept(s0: State, ns: u64, msg: Segment): Step {
    var s, key := Rotate(s0, ns), msg.id;
    if msg.count == 1 then Step(s, Some(msg.data))
    else if key in s.buffer then
      var (m, out) := Update(s.buffer[key], msg);
      Step(s.(buffer := Store(s.buffer, key, m)), out)
    else if key in s.lastBuffer then
      var (m, out) := Update(s.lastBuffer[key], msg);
      Step(s.(lastBuffer := Store(s.lastBuffer, key, m)), out)
    else if msg.seqNo >= msg.count then Step(s, None)
    else Step(s.(buffer := s.buffer[key := Fresh(msg)]), None)
  }

  class Receiver {
    var buffer: map<u64, Msgs>
    var lastBuffer: map<u64, Msgs>
    var lastSwap: u64

    constructor ()
      ensures Abstract() == INITIAL
    {
      buffer, lastBuffer, lastSwap := map[], map[], 0;
    }

    function Abstract(): State reads this { State(buffer, lastBuffer, lastSwap) }

    method Enqueue(ns: u64, msg: Segment) returns (out: Option<Bytes>)
      modifies this
      ensures Step(Abstract(), out) == Accept(old(Abstract()), ns, msg)
    {
      if Sub64(ns, lastSwap) > FIVE_SEC {
        lastSwap := ns;
        lastBuffer := map[];
        lastBuffer, buffer := buffer, lastBuffer;
      }
      if msg.count == 1 {
        return Some(msg.data);
      }
      var idx, key := msg.seqNo, msg.id;
      if key !in buffer {
        if key in lastBuffer {
          var m := lastBuffer[key];
          if IsFree(m, idx) {
            m := Put(m, idx, msg.data);
            if m.stored == m.count {
              lastBuffer := lastBuffer - {key};
              out := Assemble(m);
            } else {
              lastBuffer := lastBuffer[key := m];
              out := None;
            }
          } else {
            lastBuffer := lastBuffer - {key};
            out := None;
          }
        } else if idx < msg.count {
          var m := Fresh(msg);
          if m.stored == m.count {
            out := Assemble(m);
          } else {
            buffer := buffer[key := m];
            out := None;
          }
        } else {
          out := None;
        }
      } else {
        var m := buffer[key];
        if IsFree(m, idx) {
          m := Put(m, idx, msg.data);
          if m.stored == m.count {
            buffer := buffer - {key};
            out := Assemble(m);
          } else {
            buffer := buffer[key := m];
            out := None;
          }
        } else {
          buffer := buffer - {key};
          out := None;
        }
      }
    }
  }

  /** Appends the segments one by one, giving up at the first hole. */
  method Assemble(m: Msgs) returns (out: Option<Bytes>)
    ensures out == Assembled(m.segments)
  {
    var result: Bytes := [];
    var i := 0;
    assert m.segments[0..] == m.segments;
    assert Assembled(m.segments).Some? ==> [] + Assembled(m.segments).value == Assembled(m.segments).value;
    while i < |m.segments|
      invariant 0 <= i <= |m.segments|
      invariant var rest := Assembled(m.segments[i..]);
                Assembled(m.segments) == if rest.None? then None else Some(result + rest.value)
    {
      ghost var rest := m.segments[i..];
      assert rest[0] == m.segments[i] && rest[1..] == m.segments[i + 1..];
      if m.segments[i].None? {
        return None;
      }
      if Assembled(rest[1..]).Some? {
        Assoc(result, m.segments[i].value, Assembled(rest[1..]).value);
      }
      result := result + m.segments[i].value;
      i := i + 1;
    }
    assert m.segments[i..] == [] && result + [] == result;
    out := Some(result);
  }

  // ---------------------------------------------------------------- the state invariant

  function Filled(segments: seq<Option<Bytes>>): (n: nat)
    ensures n <= |segments|
  {
    if segments == [] then 0 else (if segments[0].Some? then 1 else 0) + Filled(segments[1..])
  }

  function TotalBytes(segments: seq<Option<Bytes>>): nat {
    if segments == [] then 0
    else (if segments[0].Some? then |segments[0].value| else 0) + TotalBytes(segments[1..])
  }

  /** Bookkeeping of one entry: it is incomplete, and its counters tell the truth. */
  predicate Consistent(m: Msgs) {
    && m.count >= 2
    && |m.segments| == m.count
    && m.stored == Filled(m.segments)
    && 0 < m.stored < m.count
    && m.bytes == TotalBytes(m.segments)
  }

  predicate Valid(s: State) {
    && s.buffer.Keys !! s.lastBuffer.Keys
    && (forall k :: k in s.buffer ==> Consistent(s.buffer[k]))
    && (forall k :: k in s.lastBuffer ==> Consistent(s.lastBuffer[k]))
  }

  lemma {:induction false} FillOne(segments: seq<Option<Bytes>>, i: nat, data: Bytes)
    requires i < |segments| && segments[i] == None
    ensures Filled(segments[i := Some(data)]) == Filled(segments) + 1
    ensures TotalBytes(segments[i := Some(data)]) == TotalBytes(segments) + |data|
  {
    if i > 0 {
      FillOne(segments[1..], i - 1, data);
      assert segments[i := Some(data)][1..] == segments[1..][i - 1 := Some(data)];
    } else {
      assert segments[i := Some(data)][1..] == segments[1..];
    }
  }

  lemma {:induction false} NoneFilled(segments: seq<Option<Bytes>>)
    requires forall i :: 0 <= i < |segments| ==> segments[i].None?
    ensures Filled(segments) == 0 && TotalBytes(segments) == 0
  {
    if segments != [] {
      NoneFilled(segments[1..]);
    }
  }

  lemma {:induction false} AllFilled(segments: seq<Option<Bytes>>)
    ensures Filled(segments) == |segments|
       <==> forall i :: 0 <= i < |segments| ==> segments[i].Some?
    ensures Filled(segments) == |segments| <==> Assembled(segments).Some?
  {
    if segments != [] {
      AllFilled(segments[1..]);
      assert (forall i :: 0 <= i < |segments| ==> segments[i].Some?)
          <==> segments[0].Some? && forall i :: 0 <= i < |segments[1..]| ==> segments[1..][i].Some? by {
        if segments[0].Some? && forall i :: 0 <= i < |segments[1..]| ==> segments[1..][i].Some? {
          forall i | 0 <= i < |segments| ensures segments[i].Some? {
            if i > 0 { assert segments[i] == segments[1..][i - 1]; }
          }
        }
        if forall i :: 0 <= i < |segments| ==> segments[i].Some? {
          forall i | 0 <= i < |segments[1..]| ensures segments[1..][i].Some? {
            assert segments[1..][i] == segments[i + 1];
          }
        }
      }
    }
  }

  lemma FreshConsistent(msg: Segment)
    requires msg.seqNo < msg.count && msg.count != 1
    ensures Consistent(Fresh(msg))
  {
    var empty := seq(msg.count, _ => None);
    NoneFilled(empty);
    FillOne(empty, msg.seqNo, msg.data);
  }

  lemma UpdateConsistent(m: Msgs, msg: Segment)
    requires Consistent(m)
    ensures Update(m, msg).0.Some? ==> Consistent(Update(m, msg).0.value)
    ensures IsFree(m, msg.seqNo) && Update(m, msg).0.None? ==> Update(m, msg).1.Some?
  {
    if IsFree(m, msg.seqNo) {
      FillOne(m.segments, msg.seqNo, msg.data);
      AllFilled(Put(m, msg.seqNo, msg.data).segments);
    }
  }

  /** Every call keeps the invariant, so in every reachable state the two generations are disjoint
      and every entry is incomplete with truthful counters. */
  lemma AcceptValid(s: State, ns: u64, msg: Segment)
    requires Valid(s)
    ensures Valid(Accept(s, ns, msg).state)
  {
    var r, key := Rotate(s, ns), msg.id;
    if msg.count == 1 {
    } else if key in r.buffer {
      UpdateConsistent(r.buffer[key], msg);
    } else if key in r.lastBuffer {
      UpdateConsistent(r.lastBuffer[key], msg);
    } else if msg.seqNo < msg.count {
      FreshConsistent(msg);
    }
  }

  /** The branch of the assembly that reports a missing segment is never taken: whenever a chunk
      completes an entry, the message comes out. */
  lemma NeverMissing(m: Msgs, msg: Segment)
    requires Consistent(m) && IsFree(m, msg.seqNo)
    ensures var m' := Put(m, msg.seqNo, msg.data);
            m'.stored == m'.count ==> Assembled(m'.segments).Some? && |Assembled(m'.segments).value| == m'.bytes
  {
    FillOne(m.segments, msg.seqNo, msg.data);
    AllFilled(Put(m, msg.seqNo, msg.data).segments);
    AssembledLength(Put(m, msg.seqNo, msg.data).segments);
  }

  lemma {:induction false} AssembledLength(segments: seq<Option<Bytes>>)
    ensures Assembled(segments).Some? ==> |Assembled(segments).value| == TotalBytes(segments)
  {
    if segments != [] {
      AssembledLength(segments[1..]);
    }
  }
}
