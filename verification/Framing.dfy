/** What the two length-prefix decoders have in common: an announced length and the unread bytes. */
module Framing {
  import opened Base

  /** What a decoder keeps between calls: the announced length, if any, and the unread bytes. */
  datatype State = State(len: Option<nat>, buffer: Bytes)

  const INITIAL := State(None, [])

  /** A payload has been announced and has not arrived in full. */
  predicate Starved(s: State) {
    s.len.Some? && |s.buffer| < s.len.value
  }

  /** The announced payload, when it is there. */
  function Ready(s: State): seq<Bytes>
    requires !Starved(s)
  {
    if s.len.Some? then [s.buffer[..s.len.value]] else []
  }

  /** The bytes after the announced payload. */
  function Beyond(s: State): Bytes
    requires !Starved(s)
  {
    if s.len.Some? then s.buffer[s.len.value..] else s.buffer
  }

  /** More bytes arrive. */
  function Extend(s: State, b: Bytes): State {
    State(s.len, s.buffer + b)
  }

  /** They change nothing about a payload that is there already. */
  lemma ExtendReady(s: State, b: Bytes)
    requires !Starved(s)
    ensures !Starved(Extend(s, b))
    ensures Ready(Extend(s, b)) == Ready(s)
    ensures Beyond(Extend(s, b)) == Beyond(s) + b
  {
    if s.len.Some? {
      var l := s.len.value;
      assert (s.buffer + b)[..l] == s.buffer[..l];
      assert (s.buffer + b)[l..] == s.buffer[l..] + b;
    }
  }
}
