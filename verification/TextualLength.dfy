/** The `textual-length-prefix` stage: a decimal length and a blank before every payload. */
module TextualLength {
  import opened Base
  import opened Framing
  import Decimal

  const MAX_U32: nat := 0xffff_ffff
  const BLANK: byte := 32

  /** Messages found, the state left behind, and whether a header could not be parsed. */
  datatype Fed = Fed(out: seq<Bytes>, state: State, failed: bool)

  predicate IsWhitespace(b: byte) {
    b == 32 || b == 9 || b == 10 || b == 12 || b == 13
  }

  /** The length of the longest prefix without whitespace. */
  function HeaderLength(bytes: Bytes): (i: nat)
    ensures i <= |bytes|
    ensures forall k :: 0 <= k < i ==> !IsWhitespace(bytes[k])
    ensures i < |bytes| ==> IsWhitespace(bytes[i])
  {
    if bytes == [] || IsWhitespace(bytes[0]) then 0 else 1 + HeaderLength(bytes[1..])
  }

  lemma HeaderEndsAt(bytes: Bytes, i: nat)
    requires i < |bytes| && IsWhitespace(bytes[i])
    requires forall k :: 0 <= k < i ==> !IsWhitespace(bytes[k])
    ensures HeaderLength(bytes) == i
  {
  }

  predicate HasHeader(bytes: Bytes) {
    HeaderLength(bytes) < |bytes|
  }

  /** The header's meaning; None when it is no 32-bit number. */
  function ParseHeader(bytes: Bytes): Option<nat>
    requires HasHeader(bytes)
  {
    Decimal.ParseUnsigned(bytes[..HeaderLength(bytes)], MAX_U32)
  }

  function AfterHeader(bytes: Bytes): Bytes
    requires HasHeader(bytes)
  {
    bytes[HeaderLength(bytes) + 1..]
  }

  /** The decoding loop. A header that does not parse is dropped, its whitespace is not. */
  function Drain(s: State): Fed
    decreases |s.buffer|
  {
    if Starved(s) then Fed([], s, false)
    else
      var rest := Beyond(s);
      if !HasHeader(rest) then Fed(Ready(s), State(None, rest), false)
      else if ParseHeader(rest).None? then
        Fed(Ready(s), State(None, rest[HeaderLength(rest)..]), true)
      else
        var more := Drain(State(ParseHeader(rest), AfterHeader(rest)));
        Fed(Ready(s) + more.out, more.state, more.failed)
  }

  function Feed(s: State, data: Bytes): Fed {
    Drain(State(s.len, s.buffer + data))
  }

  /** What the caller of one call sees: the messages, or an error and no message. */
  function Returned(f: Fed): Result<seq<Bytes>, ()> {
    if f.failed then Err(()) else Ok(f.out)
  }

  /** Successive calls; the messages of failed calls never reach the caller. */
  function FeedAll(s: State, fragments: seq<Bytes>): Fed
    decreases fragments
  {
    if fragments == [] then Fed([], s, false)
    else
      var first := Feed(s, fragments[0]);
      var more := FeedAll(first.state, fragments[1..]);
      Fed((if first.failed then [] else first.out) + more.out, more.state, first.failed || more.failed)
  }

  /** What is left of the loop once `sofar` has been collected and the state is `s`. */
  ghost predicate Left(all: Fed, sofar: seq<Bytes>, s: State) {
    all == Fed(sofar + Drain(s).out, Drain(s).state, Drain(s).failed)
  }

  /** One turn of the loop. */
  lemma Turn(all: Fed, sofar: seq<Bytes>, s: State)
    requires Left(all, sofar, s)
    requires !Starved(s) && HasHeader(Beyond(s)) && ParseHeader(Beyond(s)).Some?
    ensures Left(all, sofar + Ready(s), State(ParseHeader(Beyond(s)), AfterHeader(Beyond(s))))
  {
    Assoc(sofar, Ready(s), Drain(State(ParseHeader(Beyond(s)), AfterHeader(Beyond(s)))).out);
  }

  lemma LastTurn(all: Fed, sofar: seq<Bytes>, s: State)
    requires Left(all, sofar, s)
    requires !Starved(s) && (HasHeader(Beyond(s)) ==> ParseHeader(Beyond(s)).None?)
    ensures all == Fed(sofar + Ready(s),
                       State(None, if HasHeader(Beyond(s)) then Beyond(s)[HeaderLength(Beyond(s))..] else Beyond(s)),
                       HasHeader(Beyond(s)))
  {
  }

  lemma NoTurn(all: Fed, sofar: seq<Bytes>, s: State)
    requires Left(all, sofar, s) && Starved(s)
    ensures all == Fed(sofar, s, false)
  {
    assert sofar + [] == sofar;
  }

  class Decoder {
    var len: Option<nat>
    var buffer: Bytes

    constructor ()
      ensures Abstract() == INITIAL
    {
      len, buffer := None, [];
    }

    function Abstract(): State reads this { State(len, buffer) }

    /** Split off the announced payload; false if it has not arrived in full. */
    method SplitPayload() returns (part: seq<Bytes>, ready: bool)
      modifies this
      ensures ready == !Starved(old(Abstract()))
      ensures !ready ==> part == [] && Abstract() == old(Abstract())
      ensures ready ==> part == Ready(old(Abstract())) && Abstract() == State(None, Beyond(old(Abstract())))
    {
      part := [];
      if len.Some? {
        var l := len.value;
        if |buffer| < l {
          return [], false;
        }
        part := [buffer[..l]];
        buffer := buffer[l..];
        len := None;
      }
      ready := true;
    }

    /** Read the next header, if its whitespace is there; a header that does not parse is dropped. */
    method ReadHeader() returns (found: bool, parsed: bool)
      requires len == None
      modifies this
      ensures found == HasHeader(old(buffer))
      ensures !found ==> Abstract() == old(Abstract())
      ensures found ==> parsed == ParseHeader(old(buffer)).Some?
      ensures found && parsed ==> Abstract() == State(ParseHeader(old(buffer)), AfterHeader(old(buffer)))
      ensures found && !parsed ==> Abstract() == State(None, old(buffer)[HeaderLength(old(buffer))..])
    {
      var i := HeaderLength(buffer);
      if i == |buffer| {
        return false, false;
      }
      var l := Decimal.ParseUnsigned(buffer[..i], MAX_U32);
      if l.None? {
        buffer := buffer[i..];
        return true, false;
      }
      len := l;
      buffer := buffer[i + 1..];
      return true, true;
    }

    method Process(data: Bytes) returns (res: Result<seq<Bytes>, ()>)
      modifies this
      ensures res == Returned(Feed(old(Abstract()), data))
      ensures Abstract() == Feed(old(Abstract()), data).state
    {
      buffer := buffer + data;
      var messages: seq<Bytes> := [];
      ghost var all := Drain(Abstract());
      assert [] + all.out == all.out;
      while true
        invariant Left(all, messages, Abstract())
        decreases |buffer|
      {
        ghost var now, sofar := Abstract(), messages;
        var part, ready := SplitPayload();
        if !ready {
          NoTurn(all, sofar, now);
          break;
        }
        messages := messages + part;
        var found, parsed := ReadHeader();
        if !found {
          LastTurn(all, sofar, now);
          break;
        }
        if !parsed {
          LastTurn(all, sofar, now);
          return Err(());
        }
        Turn(all, sofar, now);
      }
      res := Ok(messages);
    }
  }

  // ---------------------------------------------------------------- fragmentation

  /** Waits for more bytes. */
  predicate Waiting(s: State) {
    Starved(s) || (s.len.None? && !HasHeader(s.buffer))
  }

  /** Unparsable for good: the next header is empty, and no byte that arrives can change that. */
  predicate Poisoned(s: State) {
    s.len.None? && s.buffer != [] && IsWhitespace(s.buffer[0])
  }

  /** A call either leaves the decoder waiting, or fails and leaves it poisoned. */
  lemma {:induction false} DrainSettles(s: State)
    ensures if Drain(s).failed then Poisoned(Drain(s).state) else Waiting(Drain(s).state)
    decreases |s.buffer|
  {
    if !Starved(s) && HasHeader(Beyond(s)) && ParseHeader(Beyond(s)).Some? {
      DrainSettles(State(ParseHeader(Beyond(s)), AfterHeader(Beyond(s))));
    }
  }

  lemma PoisonedCall(s: State, data: Bytes)
    requires Poisoned(s)
    ensures Feed(s, data) == Fed([], State(None, s.buffer + data), true)
  {
    var bytes := s.buffer + data;
    assert bytes[0] == s.buffer[0];
    assert HeaderLength(bytes) == 0;
    assert bytes[..0] == [] && bytes[0..] == bytes;
  }

  /** One bad header makes every later call fail without a message, whatever arrives, while the
      buffer keeps growing. */
  lemma {:induction false} PoisonIsForever(s: State, fragments: seq<Bytes>)
    requires Poisoned(s)
    ensures FeedAll(s, fragments) == Fed([], State(None, s.buffer + Flatten(fragments)), fragments != [])
    decreases fragments
  {
    if fragments == [] {
      assert s.buffer + [] == s.buffer;
    } else {
      PoisonedCall(s, fragments[0]);
      PoisonIsForever(Feed(s, fragments[0]).state, fragments[1..]);
      Assoc(s.buffer, fragments[0], Flatten(fragments[1..]));
    }
  }

  lemma ExtendHeader(bytes: Bytes, b: Bytes)
    requires HasHeader(bytes)
    ensures HeaderLength(bytes + b) == HeaderLength(bytes) && HasHeader(bytes + b)
    ensures ParseHeader(bytes + b) == ParseHeader(bytes)
    ensures AfterHeader(bytes + b) == AfterHeader(bytes) + b
    ensures (bytes + b)[HeaderLength(bytes)..] == bytes[HeaderLength(bytes)..] + b
  {
    var i := HeaderLength(bytes);
    HeaderEndsAt(bytes + b, i);
    assert (bytes + b)[..i] == bytes[..i];
    assert (bytes + b)[i + 1..] == bytes[i + 1..] + b;
  }

  /** Reading on from a state that has no announced payload adds nothing in front. */
  lemma DrainHeaderless(bytes: Bytes)
    ensures var d := Drain(State(None, bytes));
            if !HasHeader(bytes) then d == Fed([], State(None, bytes), false)
            else if ParseHeader(bytes).None? then
              d == Fed([], State(None, bytes[HeaderLength(bytes)..]), true)
            else d == Drain(State(ParseHeader(bytes), AfterHeader(bytes)))
  {
    if HasHeader(bytes) && ParseHeader(bytes).Some? {
      var more := Drain(State(ParseHeader(bytes), AfterHeader(bytes)));
      assert [] + more.out == more.out;
    }
  }

  /** Bytes that arrive later may as well have been there from the start: after a success the rest
      is decoded as if nothing had been cut; after a failure nothing more comes out either way. */
  lemma {:induction false} DrainThenMore(s: State, b: Bytes)
    ensures var first := Drain(s);
            var more := Feed(first.state, b);
            Drain(Extend(s, b)) == Fed(first.out + more.out, more.state, more.failed)
            && (first.failed ==> more.failed && more.out == [])
    decreases |s.buffer|
  {
    if Starved(s) {
      var more := Feed(s, b);
      assert [] + more.out == more.out;
    } else {
      ExtendReady(s, b);
      var rest := Beyond(s);
      if !HasHeader(rest) {
        DrainHeaderless(rest + b);
        assert Ready(s) + [] == Ready(s);
      } else {
        ExtendHeader(rest, b);
        if ParseHeader(rest).None? {
          PoisonedCall(Drain(s).state, b);
          assert Ready(s) + [] == Ready(s);
        } else {
          var next := State(ParseHeader(rest), AfterHeader(rest));
          DrainThenMore(next, b);
          Assoc(Ready(s), Drain(next).out, Feed(Drain(next).state, b).out);
        }
      }
    }
  }

  lemma {:induction false} Fragmentation(s: State, a: Bytes, b: Bytes)
    ensures var first := Feed(s, a);
            var more := Feed(first.state, b);
            Feed(s, a + b) == Fed(first.out + more.out, more.state, more.failed)
            && (first.failed ==> more.failed && more.out == [])
  {
    DrainThenMore(Extend(s, a), b);
    Assoc(s.buffer, a, b);
  }

  /** However a stream is cut up: the final state is that of one single call, some call fails
      exactly when the single call fails, and if none fails the messages are the same; if one
      does, the caller still gets a prefix of the messages in front of the bad header. */
  lemma {:induction false} AnyFragmentation(s: State, fragments: seq<Bytes>)
    requires Waiting(s)
    ensures var whole, parts := Feed(s, Flatten(fragments)), FeedAll(s, fragments);
            parts.state == whole.state && parts.failed == whole.failed
            && (if whole.failed then parts.out <= whole.out else parts.out == whole.out)
    decreases fragments
  {
    if fragments == [] {
      assert s.buffer + [] == s.buffer;
    } else {
      var first := Feed(s, fragments[0]);
      var tail := fragments[1..];
      DrainSettles(State(s.len, s.buffer + fragments[0]));
      Fragmentation(s, fragments[0], Flatten(tail));
      if first.failed {
        PoisonIsForever(first.state, tail);
        PoisonedCall(first.state, Flatten(tail));
      } else {
        AnyFragmentation(first.state, tail);
      }
    }
  }

  // ---------------------------------------------------------------- round trip

  function Frame(payload: Bytes): Bytes {
    Decimal.Print(|payload|) + ([BLANK] + payload)
  }

  function Wire(payloads: seq<Bytes>): Bytes {
    if payloads == [] then [] else Frame(payloads[0]) + Wire(payloads[1..])
  }

  predicate Sendable(payloads: seq<Bytes>) {
    forall p :: p in payloads ==> |p| <= MAX_U32
  }

  lemma HeaderOfFrame(p: Bytes, tail: Bytes)
    ensures HasHeader(Frame(p) + tail)
    ensures ParseHeader(Frame(p) + tail) == if |p| <= MAX_U32 then Some(|p|) else None
    ensures AfterHeader(Frame(p) + tail) == p + tail
  {
    var digits := Decimal.Print(|p|);
    var bytes := Frame(p) + tail;
    var i := |digits|;
    assert forall k :: 0 <= k < i ==> bytes[k] == digits[k] && Decimal.IsDigit(digits[k]);
    HeaderEndsAt(bytes, i);
    Assoc(digits, [BLANK] + p, tail);
    Assoc([BLANK], p, tail);
    Halves(digits, [BLANK] + (p + tail));
    Halves(digits + [BLANK], p + tail);
    Assoc(digits, [BLANK], p + tail);
    Decimal.ParsePrint(|p|, MAX_U32);
  }

  /** One frame and then more. */
  lemma DrainFrame(p: Bytes, wire: Bytes)
    requires |p| <= MAX_U32 && Drain(State(None, wire)).state == INITIAL && !Drain(State(None, wire)).failed
    ensures Drain(State(None, Frame(p) + wire)) == Fed([p] + Drain(State(None, wire)).out, INITIAL, false)
  {
    HeaderOfFrame(p, wire);
    var t := State(Some(|p|), p + wire);
    Halves(p, wire);
    assert Ready(t) == [p] && Beyond(t) == wire;
    DrainHeaderless(wire);
    DrainHeaderless(Frame(p) + wire);
    assert [] + Drain(t).out == Drain(t).out;
  }

  lemma {:induction false} DrainWire(payloads: seq<Bytes>)
    requires Sendable(payloads)
    ensures Drain(State(None, Wire(payloads))) == Fed(payloads, INITIAL, false)
    decreases |payloads|
  {
    if payloads != [] {
      var p, ps := payloads[0], payloads[1..];
      DrainWire(ps);
      DrainFrame(p, Wire(ps));
      assert payloads == [p] + ps;
    }
  }

  /** Payloads shorter than 2^32 bytes, the empty one included, come back exactly, however the
      printed stream is cut up. */
  lemma {:induction false} RoundTrip(payloads: seq<Bytes>, fragments: seq<Bytes>)
    requires Sendable(payloads)
    requires Flatten(fragments) == Wire(payloads)
    ensures FeedAll(INITIAL, fragments) == Fed(payloads, INITIAL, false)
  {
    FeedWire(payloads);
    AnyFragmentation(INITIAL, fragments);
  }

  lemma FeedWire(payloads: seq<Bytes>)
    requires Sendable(payloads)
    ensures Feed(INITIAL, Wire(payloads)) == Fed(payloads, INITIAL, false)
  {
    assert [] + Wire(payloads) == Wire(payloads);
    DrainWire(payloads);
  }

  /** A frame alone, given to a fresh decoder. */
  lemma OneFrame(data: Bytes)
    ensures var f := Feed(INITIAL, Frame(data));
            if |data| <= MAX_U32 then f == Fed([data], INITIAL, false) else f.failed && f.out == []
  {
    var s := State(None, Frame(data));
    assert [] + Frame(data) == Frame(data);
    if |data| <= MAX_U32 {
      DrainWire([data]);
      assert [data][1..] == [] && Wire([data][1..]) == [] && Frame(data) + [] == Frame(data);
    } else {
      HeaderOfFrame(data, []);
      assert Frame(data) + [] == Frame(data) == Beyond(s);
    }
  }

  /** The encoder writes a frame that a fresh decoder turns back into the payload, if and only if its
      length fits in the decoder's 32 bits. */
  method EncodeFrame(data: Bytes) returns (res: Bytes)
    ensures res == Frame(data)
    ensures |data| <= MAX_U32 ==> Feed(INITIAL, res) == Fed([data], INITIAL, false)
    ensures |data| > MAX_U32 ==> Feed(INITIAL, res).failed && Feed(INITIAL, res).out == []
  {
    var size := |data|;
    var digits := Decimal.Print(size);
    res := digits;
    res := res + [BLANK];
    res := res + data;
    Assoc(digits, [BLANK], data);
    OneFrame(data);
  }
}
