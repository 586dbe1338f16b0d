/** The `length-prefixed` stage: an 8-byte big-endian length before every payload. */
module LengthPrefix {
  import opened Base
  import opened Framing
  import BigEndian

  /** Messages produced, and the state left behind. */
  datatype Fed = Fed(out: seq<Bytes>, state: State)

  /** Reading a header. */
  function Announce(bytes: Bytes): State
    requires |bytes| > 8
  {
    State(Some(BigEndian.Decode(bytes[..8])), bytes[8..])
  }

  /** The decoding loop, run until it needs more bytes. */
  function Drain(s: State): Fed
    decreases |s.buffer|
  {
    if Starved(s) then Fed([], s)
    else if |Beyond(s)| > 8 then
      var more := Drain(Announce(Beyond(s)));
      Fed(Ready(s) + more.out, more.state)
    else Fed(Ready(s), State(None, Beyond(s)))
  }

  /** One call of the decoder. */
  function Feed(s: State, data: Bytes): Fed {
    Drain(State(s.len, s.buffer + data))
  }

  /** Successive calls, one per fragment, with the outputs joined. */
  function FeedAll(s: State, fragments: seq<Bytes>): Fed
    decreases fragments
  {
    if fragments == [] then Fed([], s)
    else
      var first := Feed(s, fragments[0]);
      var more := FeedAll(first.state, fragments[1..]);
      Fed(first.out + more.out, more.state)
  }

  /** What is left of the loop once `sofar` has been collected and the state is `s`. */
  ghost predicate Left(all: Fed, sofar: seq<Bytes>, s: State) {
    all == Fed(sofar + Drain(s).out, Drain(s).state)
  }

  /** One turn of the loop. */
  lemma Turn(all: Fed, sofar: seq<Bytes>, s: State)
    requires Left(all, sofar, s) && !Starved(s) && |Beyond(s)| > 8
    ensures Left(all, sofar + Ready(s), Announce(Beyond(s)))
  {
    Assoc(sofar, Ready(s), Drain(Announce(Beyond(s))).out);
  }

  lemma LastTurn(all: Fed, sofar: seq<Bytes>, s: State)
    requires Left(all, sofar, s)
    ensures Starved(s) ==> all == Fed(sofar, s)
    ensures !Starved(s) && |Beyond(s)| <= 8 ==> all == Fed(sofar + Ready(s), State(None, Beyond(s)))
  {
    assert sofar + [] == sofar;
  }

  class Decoder {
    var len: Option<nat>
    var buffer: Bytes

    constructor ()
      ensures Abstract() == INITIAL
    {
      len, buffer := None, [];
    }

    function Abstract(): State reads this { State(len, buffer) }

    method Process(data: Bytes) returns (res: seq<Bytes>)
      modifies this
      ensures Fed(res, Abstract()) == Feed(old(Abstract()), data)
    {
      buffer := buffer + data;
      res := [];
      ghost var all := Drain(Abstract());
      assert [] + all.out == all.out;
      while true
        invariant Left(all, res, Abstract())
        decreases |buffer|
      {
        ghost var now, sofar := Abstract(), res;
        if len.Some? {
          var l := len.value;
          if |buffer| >= l {
            var part := buffer[..l];
            buffer := buffer[l..];
            res := res + [part];
            len := None;
          } else {
            LastTurn(all, sofar, now);
            break;
          }
        }
        assert res == sofar + Ready(now) && buffer == Beyond(now) by { assert sofar + [] == sofar; }
        if |buffer| > 8 {
          Turn(all, sofar, now);
          len := Some(BigEndian.Decode(buffer[..8]));
          buffer := buffer[8..];
        } else {
          LastTurn(all, sofar, now);
          break;
        }
      }
    }
  }

  // ---------------------------------------------------------------- fragmentation

  /** A drained state is the loop's fixed point: it waits for more bytes. */
  predicate Waiting(s: State) {
    if s.len.Some? then |s.buffer| < s.len.value else |s.buffer| <= 8
  }

  lemma {:induction false} DrainWaits(s: State)
    ensures Waiting(Drain(s).state)
    decreases |s.buffer|
  {
    if !Starved(s) && |Beyond(s)| > 8 {
      DrainWaits(Announce(Beyond(s)));
    }
  }

  lemma ExtendAnnounce(bytes: Bytes, b: Bytes)
    requires |bytes| > 8
    ensures Announce(bytes + b) == Extend(Announce(bytes), b)
  {
    assert (bytes + b)[..8] == bytes[..8];
    assert (bytes + b)[8..] == bytes[8..] + b;
  }

  lemma DrainHeaderless(bytes: Bytes)
    ensures Drain(State(None, bytes))
         == if |bytes| > 8 then Drain(Announce(bytes)) else Fed([], State(None, bytes))
  {
    if |bytes| > 8 {
      var more := Drain(Announce(bytes));
      assert [] + more.out == more.out;
    }
  }

  /** Bytes that arrive later may as well have been there from the start. */
  lemma {:induction false} DrainThenMore(s: State, b: Bytes)
    ensures var first := Drain(s);
            var more := Feed(first.state, b);
            Drain(Extend(s, b)) == Fed(first.out + more.out, more.state)
    decreases |s.buffer|
  {
    if Starved(s) {
      var more := Feed(s, b);
      assert [] + more.out == more.out;
    } else {
      ExtendReady(s, b);
      if |Beyond(s)| > 8 {
        var next := Announce(Beyond(s));
        ExtendAnnounce(Beyond(s), b);
        DrainThenMore(next, b);
        Assoc(Ready(s), Drain(next).out, Feed(Drain(next).state, b).out);
      } else {
        DrainHeaderless(Beyond(s) + b);
        assert Ready(s) + [] == Ready(s);
      }
    }
  }

  /** Cutting the input of a call in two changes neither the messages nor the final state. */
  lemma {:induction false} Fragmentation(s: State, a: Bytes, b: Bytes)
    ensures var first := Feed(s, a);
            var more := Feed(first.state, b);
            Feed(s, a + b) == Fed(first.out + more.out, more.state)
  {
    DrainThenMore(Extend(s, a), b);
    Assoc(s.buffer, a, b);
  }

  /** However a stream is cut up, a waiting decoder gives what one call would give. */
  lemma {:induction false} AnyFragmentation(s: State, fragments: seq<Bytes>)
    requires Waiting(s)
    ensures FeedAll(s, fragments) == Feed(s, Flatten(fragments))
    decreases fragments
  {
    if fragments == [] {
      assert s.buffer + [] == s.buffer;
    } else {
      DrainWaits(State(s.len, s.buffer + fragments[0]));
      AnyFragmentation(Feed(s, fragments[0]).state, fragments[1..]);
      Fragmentation(s, fragments[0], Flatten(fragments[1..]));
    }
  }

  // ---------------------------------------------------------------- round trip

  /** The encoder: one frame per payload. */
  function Frame(payload: Bytes): Bytes {
    BigEndian.Encode(|payload|, 8) + payload
  }

  /** The frames of a list of payloads, one after the other. */
  function Wire(payloads: seq<Bytes>): Bytes {
    if payloads == [] then [] else Frame(payloads[0]) + Wire(payloads[1..])
  }

  lemma {:induction false} WireAppend(ps: seq<Bytes>, qs: seq<Bytes>)
    ensures Wire(ps + qs) == Wire(ps) + Wire(qs)
  {
    if ps == [] {
      assert ps + qs == qs;
    } else {
      assert (ps + qs)[1..] == ps[1..] + qs;
      WireAppend(ps[1..], qs);
    }
  }

  /** The bytes a state stands for. */
  function Unread(s: State): Bytes {
    (if s.len.Some? then BigEndian.Encode(s.len.value, 8) else []) + s.buffer
  }

  lemma WireReady(s: State)
    requires !Starved(s)
    ensures Wire(Ready(s)) + Beyond(s) == Unread(s)
  {
    if s.len.Some? {
      var p := s.buffer[..s.len.value];
      assert Wire([p]) == Frame(p) + Wire([]);
      assert s.buffer == p + Beyond(s);
    }
  }

  lemma UnreadAnnounce(bytes: Bytes)
    requires |bytes| > 8
    ensures Unread(Announce(bytes)) == bytes
  {
    BigEndian.EncodeDecode(bytes[..8]);
    assert bytes == bytes[..8] + bytes[8..];
  }

  /** No byte is lost or invented, for any input whatever: re-framing the messages and appending
      what the state still holds gives back the bytes that were fed. */
  lemma {:induction false} Conservation(s: State)
    ensures Wire(Drain(s).out) + Unread(Drain(s).state) == Unread(s)
    decreases |s.buffer|
  {
    if !Starved(s) {
      WireReady(s);
      var rest := Beyond(s);
      if |rest| > 8 {
        var next := Announce(rest);
        UnreadAnnounce(rest);
        Conservation(next);
        var more := Drain(next);
        WireAppend(Ready(s), more.out);
        Assoc(Wire(Ready(s)), Wire(more.out), Unread(more.state));
      }
    }
  }

  predicate Sendable(payloads: seq<Bytes>) {
    forall p :: p in payloads ==> |p| < TWO_64
  }

  /** What a decoder that has just met the frames of `payloads` delivers: a last payload that is
      empty stays behind, because a header is read only when more than its 8 bytes are there. */
  function Delivered(payloads: seq<Bytes>): Fed {
    if payloads != [] && payloads[|payloads| - 1] == []
    then Fed(payloads[..|payloads| - 1], State(None, BigEndian.Encode(0, 8)))
    else Fed(payloads, INITIAL)
  }

  lemma AnnounceFrame(p: Bytes, tail: Bytes)
    requires |p| < TWO_64 && |p + tail| > 0
    ensures |Frame(p) + tail| > 8
    ensures Announce(Frame(p) + tail) == State(Some(|p|), p + tail)
  {
    BigEndian.Widths();
    BigEndian.DecodeEncode(|p|, 8);
    var header := BigEndian.Encode(|p|, 8);
    Assoc(header, p, tail);
    Halves(header, p + tail);
  }

  lemma DeliveredCons(p: Bytes, ps: seq<Bytes>)
    requires ps != []
    ensures Delivered([p] + ps) == Fed([p] + Delivered(ps).out, Delivered(ps).state)
  {
    var n := |ps|;
    assert ([p] + ps)[|[p] + ps| - 1] == ps[n - 1];
    assert ([p] + ps)[..n] == [p] + ps[..n - 1];
  }

  /** The undelimited core of the round trip. */
  lemma {:induction false} DrainWire(payloads: seq<Bytes>)
    requires Sendable(payloads)
    ensures Drain(State(None, Wire(payloads))) == Delivered(payloads)
    decreases |payloads|
  {
    if payloads != [] {
      var p, ps := payloads[0], payloads[1..];
      assert payloads == [p] + ps;
      var s := State(None, Wire(payloads));
      assert Beyond(s) == Frame(p) + Wire(ps) && Ready(s) == [];
      if p + Wire(ps) == [] {
        assert ps == [];
        assert payloads[..0] == [];
        assert Wire(payloads) == BigEndian.Encode(0, 8);
      } else {
        AnnounceFrame(p, Wire(ps));
        var t := State(Some(|p|), p + Wire(ps));
        assert Ready(t) == [p] && Beyond(t) == Wire(ps);
        DrainWire(ps);
        var u := State(None, Wire(ps));
        assert Ready(u) == [] && Beyond(u) == Wire(ps);
        assert Drain(t) == Fed([p] + Drain(u).out, Drain(u).state) by {
          if |Wire(ps)| > 8 {
            assert [] + Drain(Announce(Wire(ps))).out == Drain(Announce(Wire(ps))).out;
          }
        }
        assert [] + Drain(t).out == Drain(t).out;
        if ps == [] {
          assert [p] + [] == payloads;
        } else {
          DeliveredCons(p, ps);
        }
      }
    }
  }

  /** Frames cut up in any way decode to exactly the payloads, up to a trailing empty one. */
  lemma {:induction false} RoundTrip(payloads: seq<Bytes>, fragments: seq<Bytes>)
    requires Sendable(payloads)
    requires Flatten(fragments) == Wire(payloads)
    ensures FeedAll(INITIAL, fragments) == Delivered(payloads)
  {
    AnyFragmentation(INITIAL, fragments);
    assert [] + Wire(payloads) == Wire(payloads);
    DrainWire(payloads);
  }

  /** The payload that stayed behind is delivered as soon as one more byte arrives. */
  lemma LateEmptyPayload(b: byte)
    ensures Feed(State(None, BigEndian.Encode(0, 8)), [b]) == Fed([[]], State(None, [b]))
  {
    AnnounceFrame([], [b]);
    assert Frame([]) == BigEndian.Encode(0, 8);
    assert [] + [b] == [b];
    var t := State(Some(0), [b]);
    assert Ready(t) == [[]] && Beyond(t) == [b];
    var s := State(None, BigEndian.Encode(0, 8) + [b]);
    assert Beyond(s) == Frame([]) + [b] && Drain(s) == Drain(t);
  }

  lemma OneFrame(data: Bytes)
    requires |data| < TWO_64
    ensures Feed(INITIAL, Frame(data)) == Delivered([data])
  {
    DrainWire([data]);
    assert [data][1..] == [] && Wire([data][1..]) == [] && Frame(data) + [] == Frame(data);
    assert [] + Frame(data) == Frame(data);
  }

  /** The encoder writes a frame that a fresh decoder turns back into the payload. */
  method EncodeFrame(data: Bytes) returns (res: Bytes)
    requires |data| < TWO_64
    ensures res == Frame(data)
    ensures Feed(INITIAL, res) == if data == [] then Fed([], State(None, res)) else Fed([data], INITIAL)
  {
    res := BigEndian.Encode(|data|, 8);
    res := res + data;
    OneFrame(data);
    assert data == [] ==> [data][..0] == [] && res == BigEndian.Encode(0, 8);
  }
}
