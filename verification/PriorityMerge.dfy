/** The prioritised merge of message streams, at the level of single polls, and its nesting in the
    pipeline: management before contraflow before forward flow. */
module PriorityMerge {
  import opened Base

  datatype Poll<+T> = Pending | Ready(item: T) | Ended

  /** A stream: either what it will answer when polled (pending once it has no answers left), or
      the merge of two fused streams. */
  datatype Stream<T> = Script(answers: seq<Poll<T>>) | Merged(high: Fuse<T>, low: Fuse<T>)

  /** A fused stream is not polled again once it has ended. */
  datatype Fuse<T> = Fuse(inner: Stream<T>, done: bool)

  /** One poll: the answer, and the stream after it. */
  function PollNext<T>(s: Stream<T>): (Poll<T>, Stream<T>) {
    match s
    case Script(answers) =>
      if answers == [] then (Pending, s) else (answers[0], Script(answers[1..]))
    case Merged(high, low) =>
      var (h, high') := PollFused(high);
      if h.Ready? then (h, Merged(high', low))
      else
        var (l, low') := PollFused(low);
        (if l.Ready? then l else if h.Ended? then l else Pending, Merged(high', low'))
  }

  function PollFused<T>(f: Fuse<T>): (Poll<T>, Fuse<T>) {
    if f.done then (Ended, f)
    else
      var (p, inner) := PollNext(f.inner);
      (p, Fuse(inner, p.Ended?))
  }

  /** The merge as an object. */
  class Merger<T(==)> {
    var high: Fuse<T>
    var low: Fuse<T>

    constructor (h: Stream<T>, l: Stream<T>)
      ensures Abstract() == Merged(Fuse(h, false), Fuse(l, false))
    {
      high, low := Fuse(h, false), Fuse(l, false);
    }

    function Abstract(): Stream<T> reads this { Merged(high, low) }

    method Poll() returns (p: Poll<T>)
      modifies this
      ensures (p, Abstract()) == PollNext(old(Abstract()))
    {
      var (h, high') := PollFused(high);
      high := high';
      match h {
        case Ended =>
          var (l, low') := PollFused(low);
          low := low';
          p := l;
        case Ready(_) =>
          p := h;
        case Pending =>
          var (l, low') := PollFused(low);
          low := low';
          match l {
            case Ended => p := Pending;
            case Pending => p := Pending;
            case Ready(_) => p := l;
          }
      }
    }
  }

  // ---------------------------------------------------------------- three classes

  datatype Class = Management | Contraflow | Forward

  /** A message and the stream it came from. */
  datatype Message = Message(from: Class, payload: int)

  /** All messages of a script are of one class. */
  predicate Pure(answers: seq<Poll<Message>>, c: Class) {
    forall i :: 0 <= i < |answers| && answers[i].Ready? ==> answers[i].item.from == c
  }

  /** The pipeline's nesting of three plain streams. */
  predicate IsPipeline(s: Stream<Message>) {
    && s.Merged? && s.high.inner.Script? && s.low.inner.Merged?
    && s.low.inner.high.inner.Script? && s.low.inner.low.inner.Script?
    && Pure(s.high.inner.answers, Management)
    && Pure(s.low.inner.high.inner.answers, Contraflow)
    && Pure(s.low.inner.low.inner.answers, Forward)
  }

  function PlainOf(s: Stream<Message>, c: Class): (f: Fuse<Message>)
    requires s.Merged? && s.high.inner.Script? && s.low.inner.Merged?
    requires s.low.inner.high.inner.Script? && s.low.inner.low.inner.Script?
    ensures f.inner.Script?
  {
    match c
    case Management => s.high
    case Contraflow => s.low.inner.high
    case Forward => s.low.inner.low
  }

  function Pipeline(m: seq<Poll<Message>>, c: seq<Poll<Message>>, f: seq<Poll<Message>>): Stream<Message> {
    Merged(Fuse(Script(m), false), Fuse(Merged(Fuse(Script(c), false), Fuse(Script(f), false)), false))
  }

  /** The inner merge counts as ended exactly when both its streams have. */
  predicate Consistent(s: Stream<Message>) {
    IsPipeline(s) && (s.low.done <==> PlainOf(s, Contraflow).done && PlainOf(s, Forward).done)
  }

  /** The messages of a stream that are still to come: those before its end. */
  function Upcoming(answers: seq<Poll<Message>>): seq<Message> {
    if answers == [] || answers[0].Ended? then []
    else if answers[0].Ready? then [answers[0].item] + Upcoming(answers[1..])
    else Upcoming(answers[1..])
  }

  function Left(s: Stream<Message>, c: Class): seq<Message>
    requires IsPipeline(s)
  {
    LeftOf(PlainOf(s, c))
  }

  function LeftOf(f: Fuse<Message>): seq<Message>
    requires f.inner.Script?
  {
    if f.done then [] else Upcoming(f.inner.answers)
  }

  /** What one class's stream would answer now. */
  function Answer(s: Stream<Message>, c: Class): Poll<Message>
    requires IsPipeline(s)
  {
    PollFused(PlainOf(s, c)).0
  }

  predicate Above(c: Class, d: Class) {
    (c.Management? && !d.Management?) || (c.Contraflow? && d.Forward?)
  }

  lemma PlainPoll(f: Fuse<Message>, c: Class)
    requires f.inner.Script? && Pure(f.inner.answers, c)
    ensures var (p, g) := PollFused(f);
            && g.inner.Script? && Pure(g.inner.answers, c)
            && (p.Ready? ==> p.item.from == c)
            && (if p.Ready? then LeftOf(f) == [p.item] + LeftOf(g) else LeftOf(f) == LeftOf(g))
            && (p.Ended? <==> g.done)
  {
    if !f.done && f.inner.answers != [] {
      var rest := f.inner.answers[1..];
      assert forall i :: 0 <= i < |rest| ==> rest[i] == f.inner.answers[i + 1];
    }
  }

  /** A message comes from the front of its class's stream, the other streams lose nothing, every
      higher class had nothing to offer, and the end is reported exactly when all have ended. */
  predicate Proper(s: Stream<Message>, p: Poll<Message>, t: Stream<Message>)
    requires Consistent(s)
  {
    Consistent(t) && Keeps(s, p, t) && Prioritised(s, p) && (p.Ended? <==> forall c :: PlainOf(t, c).done)
  }

  predicate Keeps(s: Stream<Message>, p: Poll<Message>, t: Stream<Message>)
    requires Consistent(s) && Consistent(t)
  {
    && (p.Ready? ==> Left(s, p.item.from) == [p.item] + Left(t, p.item.from))
    && forall c :: !(p.Ready? && p.item.from == c) ==> Left(t, c) == Left(s, c)
  }

  predicate Prioritised(s: Stream<Message>, p: Poll<Message>)
    requires Consistent(s)
  {
    if p.Ready? then Answer(s, p.item.from) == p && forall d :: Above(d, p.item.from) ==> !Answer(s, d).Ready?
    else forall c :: !Answer(s, c).Ready?
  }

  /** One poll of the pipeline's merge is proper. */
  lemma OnePoll(s: Stream<Message>)
    requires Consistent(s)
    ensures Proper(s, PollNext(s).0, PollNext(s).1)
  {
    OuterPoll(s);
    InnerPoll(s);
    if PollFused(s.high).0.Ready? {
      HighPoll(s);
    } else if s.low.done {
      LonePoll(s);
    } else {
      LowPoll(s);
    }
  }

  lemma HighPoll(s: Stream<Message>)
    requires Consistent(s) && PollFused(s.high).0.Ready?
    ensures Proper(s, PollFused(s.high).0, Merged(PollFused(s.high).1, s.low))
  {
    PlainPoll(s.high, Management);
    EveryClass(Merged(PollFused(s.high).1, s.low));
  }

  lemma LonePoll(s: Stream<Message>)
    requires Consistent(s) && !PollFused(s.high).0.Ready? && s.low.done
    ensures Proper(s, if PollFused(s.high).0.Ended? then Ended else Pending, Merged(PollFused(s.high).1, s.low))
  {
    PlainPoll(s.high, Management);
    EveryClass(Merged(PollFused(s.high).1, s.low));
  }

  lemma LowPoll(s: Stream<Message>)
    requires Consistent(s) && !PollFused(s.high).0.Ready? && !s.low.done
    ensures var (l, inner) := PollNext(s.low.inner);
            Proper(s, if l.Ready? then l else if PollFused(s.high).0.Ended? then l else Pending,
                   Merged(PollFused(s.high).1, Fuse(inner, l.Ended?)))
  {
    InnerPoll(s);
    if PollFused(s.low.inner.high).0.Ready? {
      ContraPoll(s);
    } else {
      ForwardPoll(s);
    }
  }

  lemma ContraPoll(s: Stream<Message>)
    requires Consistent(s) && !PollFused(s.high).0.Ready? && !s.low.done
    requires PollFused(s.low.inner.high).0.Ready?
    ensures var (c, contra) := PollFused(s.low.inner.high);
            Proper(s, c, Merged(PollFused(s.high).1, Fuse(Merged(contra, s.low.inner.low), false)))
  {
    PlainPoll(s.high, Management);
    PlainPoll(s.low.inner.high, Contraflow);
    EveryClass(Merged(PollFused(s.high).1, Fuse(Merged(PollFused(s.low.inner.high).1, s.low.inner.low), false)));
  }

  lemma ForwardPoll(s: Stream<Message>)
    requires Consistent(s) && !PollFused(s.high).0.Ready? && !s.low.done
    requires !PollFused(s.low.inner.high).0.Ready?
    ensures var (c, contra) := PollFused(s.low.inner.high);
            var (f, forw) := PollFused(s.low.inner.low);
            var ended := c.Ended? && f.Ended?;
            Proper(s, if f.Ready? then f else if ended && PollFused(s.high).0.Ended? then Ended else Pending,
                   Merged(PollFused(s.high).1, Fuse(Merged(contra, forw), ended)))
  {
    PlainPoll(s.high, Management);
    PlainPoll(s.low.inner.high, Contraflow);
    PlainPoll(s.low.inner.low, Forward);
    var (c, contra) := PollFused(s.low.inner.high);
    var (f, forw) := PollFused(s.low.inner.low);
    EveryClass(Merged(PollFused(s.high).1, Fuse(Merged(contra, forw), c.Ended? && f.Ended?)));
  }

  lemma EveryClass(t: Stream<Message>)
    requires IsPipeline(t)
    ensures (forall c :: PlainOf(t, c).done) <==>
              PlainOf(t, Management).done && PlainOf(t, Contraflow).done && PlainOf(t, Forward).done
  {
    if PlainOf(t, Management).done && PlainOf(t, Contraflow).done && PlainOf(t, Forward).done {
      forall c: Class ensures PlainOf(t, c).done {
        match c { case Management => case Contraflow => case Forward => }
      }
    }
  }

  lemma InnerPoll(s: Stream<Message>)
    requires IsPipeline(s)
    ensures var (h, high) := PollFused(s.low.inner.high);
            var (l, low) := PollFused(s.low.inner.low);
            PollNext(s.low.inner)
            == if h.Ready? then (h, Merged(high, s.low.inner.low))
               else (if l.Ready? then l else if h.Ended? then l else Pending, Merged(high, low))
  {
  }

  lemma OuterPoll(s: Stream<Message>)
    requires IsPipeline(s)
    ensures var (h, high) := PollFused(s.high);
            var (p, inner) := PollNext(s.low.inner);
            var (l, low) := if s.low.done then (Ended, s.low) else (p, Fuse(inner, p.Ended?));
            PollNext(s)
            == if h.Ready? then (h, Merged(high, s.low))
               else (if l.Ready? then l else if h.Ended? then l else Pending, Merged(high, low))
  {
    var (p, inner) := PollNext(s.low.inner);
    assert PollFused(s.low) == if s.low.done then (Ended, s.low) else (p, Fuse(inner, p.Ended?));
  }

  /** What comes out of `n` polls. */
  function Outputs(s: Stream<Message>, n: nat): seq<Message>
    decreases n
  {
    if n == 0 then []
    else
      var (p, t) := PollNext(s);
      (if p.Ready? then [p.item] else []) + Outputs(t, n - 1)
  }

  function AfterPolls(s: Stream<Message>, n: nat): Stream<Message>
    decreases n
  {
    if n == 0 then s else AfterPolls(PollNext(s).1, n - 1)
  }

  function Only(c: Class, messages: seq<Message>): seq<Message> {
    if messages == [] then []
    else (if messages[0].from == c then [messages[0]] else []) + Only(c, messages[1..])
  }

  /** Over any polls, whatever the three streams answer: the output restricted to one class is the
      beginning of that class's stream, in order and without loss; what is not out yet is left. */
  lemma {:induction false} LossFree(s: Stream<Message>, n: nat, c: Class)
    requires Consistent(s)
    ensures Consistent(AfterPolls(s, n))
    ensures Left(s, c) == Only(c, Outputs(s, n)) + Left(AfterPolls(s, n), c)
    decreases n
  {
    if n > 0 {
      var (p, t) := PollNext(s);
      OnePoll(s);
      LossFree(t, n - 1, c);
      var rest := Outputs(t, n - 1);
      if p.Ready? {
        assert ([p.item] + rest)[1..] == rest;
        if p.item.from == c {
          Assoc([p.item], Only(c, rest), Left(AfterPolls(t, n - 1), c));
        } else {
          assert [] + Only(c, rest) == Only(c, rest);
        }
      } else {
        assert [] + rest == rest;
      }
    }
  }

  /** Once ended, the merged stream stays ended. */
  lemma {:induction false} EndIsFinal(s: Stream<Message>, n: nat)
    requires Consistent(s) && forall c :: PlainOf(s, c).done
    ensures Outputs(s, n) == [] && AfterPolls(s, n) == s && PollNext(s).0 == Ended
    decreases n
  {
    assert PlainOf(s, Management).done && PlainOf(s, Contraflow).done && PlainOf(s, Forward).done;
    if n > 0 {
      EndIsFinal(s, n - 1);
    }
  }

  lemma PipelineConsistent(m: seq<Poll<Message>>, c: seq<Poll<Message>>, f: seq<Poll<Message>>)
    requires Pure(m, Management) && Pure(c, Contraflow) && Pure(f, Forward)
    ensures Consistent(Pipeline(m, c, f))
    ensures Left(Pipeline(m, c, f), Management) == Upcoming(m)
    ensures Left(Pipeline(m, c, f), Contraflow) == Upcoming(c)
    ensures Left(Pipeline(m, c, f), Forward) == Upcoming(f)
  {
  }
}
