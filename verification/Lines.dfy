/** The `lines` stage: splits a byte stream at a separator, keeping an unfinished line for later. */
module Lines {
  import opened Base

  datatype Config = Config(separator: byte, maxLength: nat, buffered: bool)

  /** The pieces between separators, as `slice::split` yields them: always at least one. */
  function Split(data: Bytes, sep: byte): (pieces: seq<Bytes>)
    ensures |pieces| >= 1
  {
    if data == [] then [[]]
    else
      var rest := Split(data[1..], sep);
      if data[0] == sep then [[]] + rest else [[data[0]] + rest[0]] + rest[1..]
  }

  /** The finished lines of a stream, and the unfinished one at its end. */
  function Finished(data: Bytes, sep: byte): seq<Bytes> {
    var pieces := Split(data, sep);
    pieces[..|pieces| - 1]
  }

  function Unfinished(data: Bytes, sep: byte): Bytes {
    var pieces := Split(data, sep);
    pieces[|pieces| - 1]
  }

  predicate IsValidLine(c: Config, line: Bytes) {
    c.maxLength == 0 || |line| <= c.maxLength
  }

  function ValidLines(c: Config, lines: seq<Bytes>): seq<Bytes> {
    if lines == [] then []
    else (if IsValidLine(c, lines[0]) then [lines[0]] else []) + ValidLines(c, lines[1..])
  }

  /** Result of a call and the buffer it leaves. */
  datatype Fed = Fed(result: Result<seq<Bytes>, ()>, buffer: Bytes)

  function SaveFragment(c: Config, buffer: Bytes, v: Bytes): Option<Bytes> {
    if |buffer| + |v| <= c.maxLength then Some(buffer + v) else None
  }

  /** What the first piece of a call, one that ends in a separator, contributes. */
  function FirstLine(c: Config, buffer: Bytes, v: Bytes): Option<seq<Bytes>> {
    if buffer == [] then Some(ValidLines(c, [v]))
    else if |buffer| + |v| <= c.maxLength then Some([buffer + v])
    else None
  }

  /** One call. An overflow empties the buffer and drops everything else the call found. */
  function Feed(c: Config, buffer: Bytes, data: Bytes): Fed {
    var pieces := Split(data, c.separator);
    var last := |pieces| - 1;
    if !c.buffered then Fed(Ok(ValidLines(c, pieces)), buffer)
    else if last == 0 then
      match SaveFragment(c, buffer, pieces[0])
      case Some(b) => Fed(Ok([]), b)
      case None => Fed(Err(()), [])
    else
      match FirstLine(c, buffer, pieces[0])
      case None => Fed(Err(()), [])
      case Some(first) =>
        match SaveFragment(c, [], pieces[last])
        case None => Fed(Err(()), [])
        case Some(b) => Fed(Ok(first + ValidLines(c, pieces[1..last])), b)
  }

  class Splitter {
    const config: Config
    var buffer: Bytes

    constructor (config: Config)
      ensures this.config == config && buffer == []
    {
      this.config := config;
      buffer := [];
    }

    method Save(v: Bytes) returns (ok: bool)
      modifies this
      ensures ok == SaveFragment(config, old(buffer), v).Some?
      ensures buffer == if ok then old(buffer) + v else []
    {
      var total := |buffer| + |v|;
      ok := total <= config.maxLength;
      buffer := if ok then buffer + v else [];
    }

    method Complete(v: Bytes) returns (line: Option<Bytes>)
      modifies this
      ensures buffer == []
      ensures line == if |old(buffer)| + |v| <= config.maxLength then Some(old(buffer) + v) else None
    {
      var total := |buffer| + |v|;
      line := None;
      if total <= config.maxLength {
        line := Some(buffer + v);
      }
      buffer := [];
    }

    method Process(data: Bytes) returns (res: Result<seq<Bytes>, ()>)
      modifies this
      ensures Fed(res, buffer) == Feed(config, old(buffer), data)
    {
      var lines := Split(data, config.separator);
      var last := |lines| - 1;
      if !config.buffered {
        res := Ok(ValidLines(config, lines));
        return;
      }
      var events: seq<Bytes> := [];
      if last == 0 {
        var saved := Save(lines[0]);
        return if saved then Ok(events) else Err(());
      }
      if buffer != [] {
        var line := Complete(lines[0]);
        if line.None? {
          return Err(());
        }
        events := [line.value];
      } else {
        events := ValidLines(config, [lines[0]]);
      }
      ghost var first := events;
      var i := 1;
      while i < last
        invariant 1 <= i <= last && buffer == []
        invariant events == first + ValidLines(config, lines[1..i])
      {
        ValidNext(config, first, lines, i);
        if IsValidLine(config, lines[i]) {
          events := events + [lines[i]];
        }
        i := i + 1;
      }
      var saved := Save(lines[last]);
      return if saved then Ok(events) else Err(());
    }
  }

  /** One more line in the middle of a call, after what is already there. */
  lemma ValidNext(c: Config, sofar: seq<Bytes>, lines: seq<Bytes>, i: nat)
    requires 1 <= i < |lines|
    ensures sofar + ValidLines(c, lines[1..i + 1])
         == if IsValidLine(c, lines[i]) then (sofar + ValidLines(c, lines[1..i])) + [lines[i]]
            else sofar + ValidLines(c, lines[1..i])
  {
    ValidSnoc(c, lines[1..i], lines[i]);
    assert lines[1..i + 1] == lines[1..i] + [lines[i]];
    if IsValidLine(c, lines[i]) {
      Assoc(sofar, ValidLines(c, lines[1..i]), [lines[i]]);
    }
  }

  lemma {:induction false} ValidSnoc(c: Config, lines: seq<Bytes>, line: Bytes)
    ensures ValidLines(c, lines + [line])
         == ValidLines(c, lines) + (if IsValidLine(c, line) then [line] else [])
  {
    if lines == [] {
      assert [] + [line] == [line];
      assert ValidLines(c, [line][1..]) == [];
    } else {
      assert (lines + [line])[1..] == lines[1..] + [line];
      ValidSnoc(c, lines[1..], line);
    }
  }

  // ---------------------------------------------------------------- splitting

  /** `sep` does not occur. */
  predicate Free(bytes: Bytes, sep: byte) {
    sep !in bytes
  }

  function Join(pieces: seq<Bytes>, sep: byte): Bytes
    requires |pieces| >= 1
  {
    if |pieces| == 1 then pieces[0] else pieces[0] + [sep] + Join(pieces[1..], sep)
  }

  /** Splitting is the inverse of joining with the separator. */
  lemma {:induction false} SplitJoin(data: Bytes, sep: byte)
    ensures Join(Split(data, sep), sep) == data
    ensures forall p :: p in Split(data, sep) ==> Free(p, sep)
  {
    if data != [] {
      SplitJoin(data[1..], sep);
      var rest, all := Split(data[1..], sep), Split(data, sep);
      assert data == [data[0]] + data[1..];
      if data[0] == sep {
        assert all[1..] == rest;
      } else {
        assert all[1..] == rest[1..];
        forall p | p in all ensures Free(p, sep) {
          assert p == all[0] || p in rest[1..];
          assert rest[0] in rest;
        }
      }
    }
  }

  lemma {:induction false} SplitFree(line: Bytes, sep: byte)
    requires Free(line, sep)
    ensures Split(line, sep) == [line]
  {
    if line != [] {
      assert forall b :: b in line[1..] ==> b in line;
      SplitFree(line[1..], sep);
      assert [line[0]] + line[1..] == line;
    }
  }

  /** Two lists of pieces run together: the last piece of one and the first of the other merge. */
  function Meet(p: seq<Bytes>, q: seq<Bytes>): seq<Bytes>
    requires |p| >= 1 && |q| >= 1
  {
    p[..|p| - 1] + ([p[|p| - 1] + q[0]] + q[1..])
  }

  lemma MeetSeparator(p: seq<Bytes>, q: seq<Bytes>)
    requires |p| >= 1 && |q| >= 1
    ensures Meet([[]] + p, q) == [[]] + Meet(p, q)
  {
    var e := [[]] + p;
    assert e[..|e| - 1] == [[]] + p[..|p| - 1] && e[|e| - 1] == p[|p| - 1];
    Assoc([[]], p[..|p| - 1], [p[|p| - 1] + q[0]] + q[1..]);
  }

  lemma MeetByte(b: byte, p: seq<Bytes>, q: seq<Bytes>)
    requires |p| >= 1 && |q| >= 1
    ensures Meet([[b] + p[0]] + p[1..], q) == [[b] + Meet(p, q)[0]] + Meet(p, q)[1..]
  {
    var e := [[b] + p[0]] + p[1..];
    if |p| == 1 {
      assert e == [[b] + p[0]];
      assert e[..0] == [] && p[..0] == [];
      Assoc([b], p[0], q[0]);
    } else {
      assert e[..|e| - 1] == [[b] + p[0]] + p[1..|p| - 1];
      assert p[..|p| - 1] == [p[0]] + p[1..|p| - 1];
      assert Meet(p, q)[1..] == p[1..|p| - 1] + ([p[|p| - 1] + q[0]] + q[1..]);
    }
  }

  lemma {:induction false} SplitAppend(a: Bytes, b: Bytes, sep: byte)
    ensures Split(a + b, sep) == Meet(Split(a, sep), Split(b, sep))
  {
    if a == [] {
      assert a + b == b;
      MeetUnit(Split(b, sep));
    } else {
      assert (a + b)[0] == a[0] && (a + b)[1..] == a[1..] + b;
      SplitAppend(a[1..], b, sep);
      if a[0] == sep {
        MeetSeparator(Split(a[1..], sep), Split(b, sep));
      } else {
        MeetByte(a[0], Split(a[1..], sep), Split(b, sep));
      }
    }
  }

  lemma MeetUnit(q: seq<Bytes>)
    requires |q| >= 1
    ensures Meet([[]], q) == q
  {
    assert Meet([[]], q) == [] + ([[] + q[0]] + q[1..]) && [] + q[0] == q[0];
  }

  /** Bytes without a separator lengthen the first piece of what follows. */
  lemma SplitFreeAppend(u: Bytes, b: Bytes, sep: byte)
    requires Free(u, sep)
    ensures Split(u + b, sep) == [u + Split(b, sep)[0]] + Split(b, sep)[1..]
  {
    SplitFree(u, sep);
    SplitAppend(u, b, sep);
    assert [u][..0] == [];
  }

  lemma UnfinishedFree(data: Bytes, sep: byte)
    ensures Free(Unfinished(data, sep), sep)
    ensures forall p :: p in Finished(data, sep) ==> Free(p, sep)
  {
    SplitJoin(data, sep);
    assert Unfinished(data, sep) in Split(data, sep);
  }

  // ---------------------------------------------------------------- every reachable state

  predicate Fits(c: Config, line: Bytes) {
    Free(line, c.separator) && |line| <= c.maxLength
  }

  predicate AllFit(c: Config, lines: seq<Bytes>) {
    forall p :: p in lines ==> Fits(c, p)
  }

  lemma {:induction false} ValidLinesFit(c: Config, lines: seq<Bytes>)
    requires forall p :: p in lines ==> Free(p, c.separator)
    ensures AllValid(c, ValidLines(c, lines))
  {
    if lines != [] {
      assert forall p :: p in lines[1..] ==> p in lines;
      assert lines[0] in lines;
      ValidLinesFit(c, lines[1..]);
    }
  }

  predicate AllValid(c: Config, lines: seq<Bytes>) {
    forall p :: p in lines ==> Free(p, c.separator) && IsValidLine(c, p)
  }

  /** Whatever arrives, and whether or not the call fails: the buffer stays free of separators and
      within the limit, and every line handed out is free of separators too, and within the limit if
      there is one. */
  lemma StateInvariant(c: Config, buffer: Bytes, data: Bytes)
    requires Fits(c, buffer)
    ensures Fits(c, Feed(c, buffer, data).buffer)
    ensures Feed(c, buffer, data).result.Ok? ==> AllValid(c, Feed(c, buffer, data).result.value)
    ensures Feed(c, buffer, data).result.Err? ==> Feed(c, buffer, data).buffer == []
  {
    var pieces := Split(data, c.separator);
    SplitJoin(data, c.separator);
    var last := |pieces| - 1;
    assert pieces[0] in pieces && pieces[last] in pieces;
    ValidLinesFit(c, pieces);
    if c.buffered && last > 0 {
      assert forall p :: p in pieces[1..last] ==> p in pieces;
      ValidLinesFit(c, pieces[1..last]);
      ValidLinesFit(c, [pieces[0]]);
    }
  }

  // ---------------------------------------------------------------- refinement of splitting

  /** Successive calls: whether none failed, the lines handed out, the last buffer. */
  datatype Run = Run(ok: bool, out: seq<Bytes>, buffer: Bytes)

  function FeedAll(c: Config, buffer: Bytes, fragments: seq<Bytes>): Run
    decreases fragments
  {
    if fragments == [] then Run(true, [], buffer)
    else
      var first := Feed(c, buffer, fragments[0]);
      var more := FeedAll(c, first.buffer, fragments[1..]);
      Run(first.result.Ok? && more.ok,
          (if first.result.Ok? then first.result.value else []) + more.out,
          more.buffer)
  }

  lemma {:induction false} ValidLinesAll(c: Config, lines: seq<Bytes>)
    requires forall p :: p in lines ==> |p| <= c.maxLength
    ensures ValidLines(c, lines) == lines
  {
    if lines != [] {
      assert lines[0] in lines && forall p :: p in lines[1..] ==> p in lines;
      ValidLinesAll(c, lines[1..]);
      assert [lines[0]] + lines[1..] == lines;
    }
  }

  /** One call on a stream whose pieces all fit. */
  lemma FeedWithinLimits(c: Config, buffer: Bytes, data: Bytes)
    requires c.buffered && Fits(c, buffer)
    requires AllFit(c, Split(buffer + data, c.separator))
    ensures Feed(c, buffer, data)
         == Fed(Ok(Finished(buffer + data, c.separator)), Unfinished(buffer + data, c.separator))
  {
    var pieces := Split(data, c.separator);
    var last := |pieces| - 1;
    SplitFreeAppend(buffer, data, c.separator);
    var all := Split(buffer + data, c.separator);
    assert all[0] in all && all[last] in all;
    if last > 0 {
      assert all[last] == pieces[last];
      FirstLineFits(c, buffer, pieces[0]);
      MiddleFits(c, all, pieces);
    }
  }

  lemma FirstLineFits(c: Config, buffer: Bytes, v: Bytes)
    requires |buffer + v| <= c.maxLength
    ensures FirstLine(c, buffer, v) == Some([buffer + v])
  {
    if buffer == [] {
      assert buffer + v == v;
      ValidLinesAll(c, [v]);
    }
  }

  lemma MiddleFits(c: Config, all: seq<Bytes>, pieces: seq<Bytes>)
    requires |pieces| >= 2 && |all| == |pieces| && all[1..] == pieces[1..]
    requires AllFit(c, all)
    ensures [all[0]] + ValidLines(c, pieces[1..|pieces| - 1]) == all[..|all| - 1]
    ensures SaveFragment(c, [], pieces[|pieces| - 1]) == Some(all[|all| - 1])
  {
    var last := |pieces| - 1;
    var middle := pieces[1..last];
    assert middle == all[1..last];
    forall p | p in middle ensures |p| <= c.maxLength { assert p in all; }
    ValidLinesAll(c, middle);
    assert pieces[last] == all[1..][last - 1];
    assert all[last] in all;
    assert [] + pieces[last] == pieces[last];
  }

  /** Finished lines of a longer stream begin with those of a shorter one; the unfinished line of
      the shorter carries over. */
  lemma SplitResume(a: Bytes, b: Bytes, sep: byte)
    ensures Split(a + b, sep) == Finished(a, sep) + Split(Unfinished(a, sep) + b, sep)
    ensures Finished(a + b, sep) == Finished(a, sep) + Finished(Unfinished(a, sep) + b, sep)
    ensures Unfinished(a + b, sep) == Unfinished(Unfinished(a, sep) + b, sep)
  {
    var f, u, w := Finished(a, sep), Unfinished(a, sep), Split(Unfinished(a, sep) + b, sep);
    SplitAppend(a, b, sep);
    UnfinishedFree(a, sep);
    SplitFreeAppend(u, b, sep);
    assert (f + w)[..|f + w| - 1] == f + w[..|w| - 1];
  }

  lemma {:induction false} WithinLimits(c: Config, buffer: Bytes, fragments: seq<Bytes>)
    requires c.buffered && Fits(c, buffer)
    requires AllFit(c, Split(buffer + Flatten(fragments), c.separator))
    ensures var stream := buffer + Flatten(fragments);
            FeedAll(c, buffer, fragments)
            == Run(true, Finished(stream, c.separator), Unfinished(stream, c.separator))
    decreases fragments
  {
    var sep := c.separator;
    if fragments == [] {
      SplitFree(buffer, sep);
      assert buffer + [] == buffer;
    } else {
      var head, tail := buffer + fragments[0], Flatten(fragments[1..]);
      Assoc(buffer, fragments[0], tail);
      SplitResume(head, tail, sep);
      var whole := Split(head + tail, sep);
      var u := Unfinished(head, sep);
      UnfinishedFree(head, sep);
      forall p | p in Split(u + tail, sep) ensures Fits(c, p) { assert p in whole; }
      forall p | p in Finished(head, sep) ensures Fits(c, p) { assert p in whole; }
      SplitFreeAppend(u, tail, sep);
      assert Split(u + tail, sep)[0] in Split(u + tail, sep);
      assert Split(head, sep) == Finished(head, sep) + [u];
      FeedWithinLimits(c, buffer, fragments[0]);
      WithinLimits(c, u, fragments[1..]);
    }
  }

  lemma {:induction false} RunInvariant(c: Config, buffer: Bytes, fragments: seq<Bytes>)
    requires Fits(c, buffer) && c.maxLength > 0
    ensures Fits(c, FeedAll(c, buffer, fragments).buffer)
    ensures AllFit(c, FeedAll(c, buffer, fragments).out)
    decreases fragments
  {
    if fragments != [] {
      StateInvariant(c, buffer, fragments[0]);
      RunInvariant(c, Feed(c, buffer, fragments[0]).buffer, fragments[1..]);
    }
  }

  /** The decoder refines whole-stream splitting exactly on the streams within its limit: for any
      fragmentation, it hands out the stream's lines and holds the unfinished one if and only if
      no line and no unfinished rest is longer than the limit. */
  lemma RefinesSplitting(c: Config, fragments: seq<Bytes>)
    requires c.buffered && c.maxLength > 0
    ensures var stream := Flatten(fragments);
            FeedAll(c, [], fragments)
              == Run(true, Finished(stream, c.separator), Unfinished(stream, c.separator))
            <==> forall p :: p in Split(stream, c.separator) ==> |p| <= c.maxLength
  {
    var stream, sep := Flatten(fragments), c.separator;
    var pieces := Split(stream, sep);
    if forall p :: p in pieces ==> |p| <= c.maxLength {
      assert [] + stream == stream;
      SplitJoin(stream, sep);
      WithinLimits(c, [], fragments);
    } else {
      RunInvariant(c, [], fragments);
      assert pieces == Finished(stream, sep) + [Unfinished(stream, sep)];
    }
  }

  // ---------------------------------------------------------------- past the limit

  predicate IsSuffix(tail: Bytes, line: Bytes) {
    |tail| <= |line| && line[|line| - |tail|..] == tail
  }

  lemma SuffixAppend(tail: Bytes, line: Bytes, more: Bytes)
    requires IsSuffix(tail, line)
    ensures IsSuffix(tail + more, line + more)
  {
    var head := line[..|line| - |tail|];
    assert line == head + tail;
    Assoc(head, tail, more);
    Halves(head, tail + more);
  }

  /** One call on an unfinished line `u` of which only the end is still there. */
  lemma CallKeepsEnd(c: Config, u: Bytes, buffer: Bytes, data: Bytes)
    requires c.buffered && Free(u, c.separator) && IsSuffix(buffer, u)
    ensures IsSuffix(Feed(c, buffer, data).buffer, Unfinished(u + data, c.separator))
  {
    var pieces := Split(data, c.separator);
    SplitFreeAppend(u, data, c.separator);
    if |pieces| == 1 {
      SuffixAppend(buffer, u, pieces[0]);
    } else {
      assert Unfinished(u + data, c.separator) == pieces[|pieces| - 1];
      assert [] + pieces[|pieces| - 1] == pieces[|pieces| - 1];
    }
  }

  /** Whatever overflows before, the buffer is the end of the unfinished line of the whole stream. */
  lemma {:induction false} BufferIsEnd(c: Config, u: Bytes, buffer: Bytes, fragments: seq<Bytes>)
    requires c.buffered && Free(u, c.separator) && IsSuffix(buffer, u)
    ensures IsSuffix(FeedAll(c, buffer, fragments).buffer, Unfinished(u + Flatten(fragments), c.separator))
    decreases fragments
  {
    var sep := c.separator;
    if fragments == [] {
      SplitFree(u, sep);
      assert u + [] == u;
    } else {
      var head, tail := u + fragments[0], Flatten(fragments[1..]);
      CallKeepsEnd(c, u, buffer, fragments[0]);
      UnfinishedFree(head, sep);
      BufferIsEnd(c, Unfinished(head, sep), Feed(c, buffer, fragments[0]).buffer, fragments[1..]);
      Assoc(u, fragments[0], tail);
      SplitResume(head, tail, sep);
    }
  }

  /** The lines that one call finishes, `u` being the unfinished line before it. */
  function FinishedBy(c: Config, u: Bytes, data: Bytes): seq<Bytes> {
    Finished(u + data, c.separator)
  }

  lemma FinishedPieces(c: Config, u: Bytes, data: Bytes)
    requires Free(u, c.separator) && |Split(data, c.separator)| > 1
    ensures var pieces := Split(data, c.separator);
            FinishedBy(c, u, data) == [u + pieces[0]] + pieces[1..|pieces| - 1]
  {
    var pieces := Split(data, c.separator);
    SplitFreeAppend(u, data, c.separator);
    var all := Split(u + data, c.separator);
    assert all[..|all| - 1] == [all[0]] + all[1..][..|all| - 2];
    assert all[1..][..|all| - 2] == pieces[1..|pieces| - 1];
  }

  lemma ValidCons(c: Config, line: Bytes, lines: seq<Bytes>)
    ensures ValidLines(c, [line] + lines) == (if IsValidLine(c, line) then [line] else []) + ValidLines(c, lines)
  {
    assert ([line] + lines)[1..] == lines;
  }

  /** What a successful call that finishes a line hands out: in front of the lines in the middle either
      what the buffer makes of the first one, or nothing. */
  lemma CallLines(c: Config, buffer: Bytes, data: Bytes)
    requires c.buffered && Feed(c, buffer, data).result.Ok? && |Split(data, c.separator)| > 1
    ensures var pieces := Split(data, c.separator);
            var line := buffer + pieces[0];
            && (buffer != [] ==> |line| <= c.maxLength)
            && Feed(c, buffer, data).result.value
               == (if IsValidLine(c, line) then [line] else []) + ValidLines(c, pieces[1..|pieces| - 1])
  {
    var pieces := Split(data, c.separator);
    if buffer == [] {
      assert [] + pieces[0] == pieces[0] && [pieces[0]] + [] == [pieces[0]];
      ValidCons(c, pieces[0], []);
    }
  }

  lemma SameFront(a: seq<Bytes>, b: seq<Bytes>, rest: seq<Bytes>)
    ensures a + rest == b + rest <==> a == b
  {
    if a + rest == b + rest {
      assert a == (a + rest)[..|a|] && b == (b + rest)[..|b|];
    }
  }

  /** Exactly when a call hands out lines of the stream and nothing else, after any calls whatever. Let `u`
      be the unfinished line before it. A successful call hands out the lines that it finishes, without
      those that are too long, if and only if it finishes none, or nothing of `u` had been dropped, or all
      of it and the rest of that line alone is too long. Otherwise it hands out the end of that line as a
      line of its own. */
  lemma WholeLinesExactly(c: Config, fragments: seq<Bytes>, data: Bytes)
    requires c.buffered && Feed(c, FeedAll(c, [], fragments).buffer, data).result.Ok?
    ensures var u, buffer := Unfinished(Flatten(fragments), c.separator), FeedAll(c, [], fragments).buffer;
            var pieces, out := Split(data, c.separator), Feed(c, buffer, data).result.value;
            && IsSuffix(buffer, u)
            && (out == ValidLines(c, FinishedBy(c, u, data)) <==>
                  |pieces| == 1 || buffer == u || (buffer == [] && !IsValidLine(c, pieces[0])))
            && (out != ValidLines(c, FinishedBy(c, u, data)) ==>
                  out == [buffer + pieces[0]] + ValidLines(c, pieces[1..|pieces| - 1])
                  && |buffer + pieces[0]| < |u + pieces[0]| && IsSuffix(buffer + pieces[0], u + pieces[0]))
  {
    var stream, buffer := Flatten(fragments), FeedAll(c, [], fragments).buffer;
    var u := Unfinished(stream, c.separator);
    assert [] + stream == stream;
    BufferIsEnd(c, [], [], fragments);
    UnfinishedFree(stream, c.separator);
    OneCallExactly(c, u, buffer, data);
  }

  lemma OneCallExactly(c: Config, u: Bytes, buffer: Bytes, data: Bytes)
    requires c.buffered && Free(u, c.separator) && IsSuffix(buffer, u) && Feed(c, buffer, data).result.Ok?
    ensures var pieces, out := Split(data, c.separator), Feed(c, buffer, data).result.value;
            && (out == ValidLines(c, FinishedBy(c, u, data)) <==>
                  |pieces| == 1 || buffer == u || (buffer == [] && !IsValidLine(c, pieces[0])))
            && (out != ValidLines(c, FinishedBy(c, u, data)) ==>
                  out == [buffer + pieces[0]] + ValidLines(c, pieces[1..|pieces| - 1])
                  && |buffer + pieces[0]| < |u + pieces[0]| && IsSuffix(buffer + pieces[0], u + pieces[0]))
  {
    var pieces := Split(data, c.separator);
    if |pieces| == 1 {
      SplitFreeAppend(u, data, c.separator);
    } else {
      CallLines(c, buffer, data);
      FinishedPieces(c, u, data);
      var whole, line, middle := u + pieces[0], buffer + pieces[0], pieces[1..|pieces| - 1];
      ValidCons(c, whole, middle);
      SuffixAppend(buffer, u, pieces[0]);
      SameFront(if IsValidLine(c, line) then [line] else [], if IsValidLine(c, whole) then [whole] else [],
                ValidLines(c, middle));
      assert buffer == [] ==> line == pieces[0];
      assert buffer != u ==> |line| < |whole|;
    }
  }

  /** An overlong line that arrives in one piece is dropped without an error. */
  lemma DroppedSilently(c: Config, line: Bytes)
    requires c.buffered && 0 < c.maxLength < |line| && Free(line, c.separator)
    ensures Feed(c, [], line + [c.separator]) == Fed(Ok([]), [])
  {
    SplitFrame(line, c.separator);
    ValidCons(c, line, []);
    assert [line, []][1..1] == [] && [line] + [] == [line];
  }

  /** One that arrives in two is an error first; the end of it then comes out, although it is not a line of
      the stream. */
  lemma OverflowLeaksTail(c: Config, a: Bytes, b: Bytes)
    requires c.buffered && c.maxLength > 0
    requires Free(a, c.separator) && Free(b, c.separator) && |a| > c.maxLength >= |b|
    ensures Feed(c, [], a) == Fed(Err(()), [])
    ensures Feed(c, [], b + [c.separator]) == Fed(Ok([b]), [])
    ensures Finished(a + (b + [c.separator]), c.separator) == [a + b]
  {
    SplitFree(a, c.separator);
    SplitFrame(b, c.separator);
    ValidLinesAll(c, [b]);
    assert [b, []][1..1] == [] && [b] + [] == [b];
    assert Free(a + b, c.separator);
    SplitFrame(a + b, c.separator);
    Assoc(a, b, [c.separator]);
  }

  /** A limit of 0 means "none" for finished lines only: with buffering on, a call that does not
      end in a separator then fails. */
  lemma ZeroLimit(c: Config, data: Bytes)
    requires c.buffered && c.maxLength == 0
    ensures Feed(c, [], data)
         == if Unfinished(data, c.separator) == []
            then Fed(Ok(Finished(data, c.separator)), []) else Fed(Err(()), [])
  {
    var pieces := Split(data, c.separator);
    var last := |pieces| - 1;
    if last > 0 {
      ValidLinesUnlimited(c, [pieces[0]]);
      ValidLinesUnlimited(c, pieces[1..last]);
      assert [pieces[0]] + pieces[1..last] == pieces[..last];
    }
  }

  lemma {:induction false} ValidLinesUnlimited(c: Config, lines: seq<Bytes>)
    requires c.maxLength == 0
    ensures ValidLines(c, lines) == lines
  {
    if lines != [] {
      ValidLinesUnlimited(c, lines[1..]);
      assert [lines[0]] + lines[1..] == lines;
    }
  }

  // ---------------------------------------------------------------- round trip

  const NEWLINE: byte := 10

  function Frame(payload: Bytes): Bytes { payload + [NEWLINE] }

  function Wire(payloads: seq<Bytes>): Bytes {
    if payloads == [] then [] else Frame(payloads[0]) + Wire(payloads[1..])
  }

  lemma OneFrame(c: Config, data: Bytes)
    requires c.buffered && c.separator == NEWLINE
    ensures Feed(c, [], Frame(data)) == Fed(Ok([data]), []) <==> Free(data, NEWLINE) && IsValidLine(c, data)
  {
    if Free(data, NEWLINE) {
      SplitFrame(data, NEWLINE);
      ValidCons(c, data, []);
      assert [data, []][1..1] == [] && [data] + [] == [data];
    }
    StateInvariant(c, [], Frame(data));
    assert data in [data];
  }

  /** The encoder writes a line that a fresh decoder hands out again, if and only if it is within the
      decoder's limit and has no newline in it. */
  method EncodeFrame(data: Bytes) returns (res: Bytes)
    ensures res == Frame(data)
    ensures forall c: Config | c.buffered && c.separator == NEWLINE ::
              Feed(c, [], res) == Fed(Ok([data]), []) <==> Free(data, NEWLINE) && IsValidLine(c, data)
  {
    res := data;
    res := res + [NEWLINE];
    forall c: Config | c.buffered && c.separator == NEWLINE
      ensures Feed(c, [], res) == Fed(Ok([data]), []) <==> Free(data, NEWLINE) && IsValidLine(c, data)
    {
      OneFrame(c, data);
    }
  }

  lemma SplitFrame(line: Bytes, sep: byte)
    requires Free(line, sep)
    ensures Split(line + [sep], sep) == [line, []]
  {
    SplitFree(line, sep);
    SplitAppend(line, [sep], sep);
    assert Split([sep][1..], sep) == [[]];
    assert line + [] == line;
  }

  lemma SplitFrameThen(p: Bytes, wire: Bytes)
    requires Free(p, NEWLINE)
    ensures Split(Frame(p) + wire, NEWLINE) == [p] + Split(wire, NEWLINE)
  {
    SplitFrame(p, NEWLINE);
    SplitResume(Frame(p), wire, NEWLINE);
    assert Finished(Frame(p), NEWLINE) == [p];
    assert [] + wire == wire;
  }

  lemma {:induction false} SplitWire(payloads: seq<Bytes>)
    requires forall p :: p in payloads ==> Free(p, NEWLINE)
    ensures Split(Wire(payloads), NEWLINE) == payloads + [[]]
  {
    if payloads != [] {
      var p, ps := payloads[0], payloads[1..];
      assert p in payloads && forall q :: q in ps ==> q in payloads;
      SplitWire(ps);
      SplitFrameThen(p, Wire(ps));
      assert payloads == [p] + ps;
      Assoc([p], ps, [[]]);
    }
  }

  /** Newline-terminated payloads come back exactly, however the stream is cut up. */
  lemma RoundTrip(c: Config, payloads: seq<Bytes>, fragments: seq<Bytes>)
    requires c.buffered && c.separator == NEWLINE && AllFit(c, payloads)
    requires Flatten(fragments) == Wire(payloads)
    ensures FeedAll(c, [], fragments) == Run(true, payloads, [])
  {
    SplitWire(payloads);
    assert [] + Wire(payloads) == Wire(payloads);
    WithinLimits(c, [], fragments);
    assert (payloads + [[]])[..|payloads|] == payloads;
  }
}
