/** The `statsd` codec: `metric:value|type`, with an optional sample rate. */
module StatsD {
  import opened Base
  import Decimal

  const COLON: byte := 58
  const BAR: byte := 124
  const AT: byte := 64
  const DOT: byte := 46

  const ADD: Bytes := [97, 100, 100]
  const SUB: Bytes := [115, 117, 98]
  const COUNTER: Bytes := [99]
  const HISTOGRAM: Bytes := [104]
  const SET: Bytes := [115]
  const TIMER: Bytes := [109, 115]
  const GAUGE: Bytes := [103]

  /** A number: an integer, or a 64-bit float pattern. */
  datatype Num = Int(n: int) | Float(bits: u64)

  /** A field that should hold a number may hold something else. */
  datatype Field = Number(num: Num) | NoNumber

  /** The parts of a value the codec looks at. */
  datatype Metric = Metric(
    metric: Option<Bytes>, kind: Option<Bytes>, value: Option<Field>,
    action: Option<Bytes>, sampleRate: Option<Field>)

  /** How floats are printed and parsed is the business of a library. */
  type FloatPrinter = u64 -> Bytes
  type FloatParser = Bytes -> Option<u64>

  // ---------------------------------------------------------------- encoding

  function PrintNum(num: Num, show: FloatPrinter): Bytes {
    match num
    case Int(n) => Decimal.PrintSigned(n)
    case Float(bits) => show(bits)
  }

  function SignOf(kind: Bytes, action: Option<Bytes>): Bytes {
    if kind != GAUGE then []
    else if action == Some(ADD) then [Decimal.PLUS]
    else if action == Some(SUB) then [Decimal.MINUS]
    else []
  }

  function RateOf(rate: Option<Field>, show: FloatPrinter): Result<Bytes, ()> {
    match rate
    case None => Ok([])
    case Some(NoNumber) => Err(())
    case Some(Number(num)) => Ok([BAR, AT] + PrintNum(num, show))
  }

  function Encoded(m: Metric, show: FloatPrinter): Result<Bytes, ()> {
    if m.metric.None? || m.kind.None? || m.value.None? || m.value.value.NoNumber? then Err(())
    else
      var rate := RateOf(m.sampleRate, show);
      if rate.Err? then Err(())
      else
        var text := SignOf(m.kind.value, m.action) + PrintNum(m.value.value.num, show);
        Ok(m.metric.value + ([COLON] + (text + ([BAR] + (m.kind.value + rate.value)))))
  }

  /** Pushing the parts one by one lays them out as nested concatenations do. */
  lemma Layout(name: Bytes, sign: Bytes, num: Bytes, kind: Bytes, rate: Result<Bytes, ()>)
    ensures rate.Ok? ==>
              name + [COLON] + sign + num + [BAR] + kind + rate.value
              == name + ([COLON] + (sign + num + ([BAR] + (kind + rate.value))))
  {
    if rate.Ok? {
      var r := rate.value;
      Assoc(name + [COLON] + sign + num + [BAR], kind, r);
      Assoc(name + [COLON] + sign + num, [BAR], kind + r);
      var tail := [BAR] + (kind + r);
      Assoc(name + [COLON], sign, num);
      Assoc(name + [COLON], sign + num, tail);
      Assoc(name, [COLON], sign + num + tail);
    }
  }

  method Encode(m: Metric, show: FloatPrinter) returns (res: Result<Bytes, ()>)
    ensures res == Encoded(m, show)
  {
    if m.metric.None? || m.kind.None? || m.value.None? || m.value.value.NoNumber? {
      return Err(());
    }
    var r := m.metric.value;
    var t := m.kind.value;
    ghost var sign := SignOf(t, m.action);
    r := r + [COLON];
    if t == GAUGE {
      if m.action == Some(ADD) {
        r := r + [Decimal.PLUS];
      } else if m.action == Some(SUB) {
        r := r + [Decimal.MINUS];
      }
    }
    assert r == m.metric.value + [COLON] + sign;
    r := r + PrintNum(m.value.value.num, show);
    r := r + [BAR];
    r := r + t;
    Layout(m.metric.value, sign, PrintNum(m.value.value.num, show), t, RateOf(m.sampleRate, show));
    if m.sampleRate == None {
      assert r + [] == r;
    } else {
      if m.sampleRate.value.NoNumber? {
        return Err(());
      }
      Assoc(r, [BAR, AT], PrintNum(m.sampleRate.value.num, show));
      r := r + [BAR, AT];
      r := r + PrintNum(m.sampleRate.value.num, show);
    }
    res := Ok(r);
  }

  // ---------------------------------------------------------------- decoding

  /** What is before and after the first occurrence of a byte. */
  function Cut(bytes: Bytes, at: byte): Option<(Bytes, Bytes)> {
    if bytes == [] then None
    else if bytes[0] == at then Some(([], bytes[1..]))
    else
      match Cut(bytes[1..], at)
      case None => None
      case Some(parts) => Some(([bytes[0]] + parts.0, parts.1))
  }

  /** A text with a dot is a float. */
  function ParseNum(text: Bytes, parse: FloatParser): Option<Num> {
    if DOT in text then
      match parse(text) { case None => None case Some(bits) => Some(Float(bits)) }
    else
      match Decimal.ParseSigned(text) { case None => None case Some(n) => Some(Int(n)) }
  }

  /** Negation on 64 bits, and of a float's sign bit. */
  function Negated(num: Num): Num {
    match num
    case Int(n) => Int(if n == -Decimal.MAX_I64 - 1 then n else -n)
    case Float(bits) => Float((bits + 0x8000_0000_0000_0000) % TWO_64)
  }

  /** What follows the type: nothing, or a sample rate. */
  function ParseRate(rest: Bytes, parse: FloatParser): Result<Option<Field>, ()> {
    if rest == [] then Ok(None)
    else if |rest| >= 2 && rest[0] == BAR && rest[1] == AT then
      match parse(rest[2..]) { case None => Err(()) case Some(bits) => Ok(Some(Number(Float(bits)))) }
    else Err(())
  }

  /** A gauge with a sign is a change, not a value. */
  function GaugeAction(text: Bytes): Option<Bytes> {
    if text != [] && text[0] == Decimal.PLUS then Some(ADD)
    else if text != [] && text[0] == Decimal.MINUS then Some(SUB)
    else None
  }

  /** Type, action, value and the bytes left, from the value's text and what follows the bar. */
  function ParseKind(text: Bytes, num: Num, rest: Bytes): Option<(Bytes, Option<Bytes>, Num, Bytes)> {
    if rest == [] then None
    else if [rest[0]] == COUNTER || [rest[0]] == HISTOGRAM || [rest[0]] == SET then
      Some(([rest[0]], None, num, rest[1..]))
    else if rest[0] == TIMER[0] then
      if |rest| >= 2 && rest[1] == TIMER[1] then Some((TIMER, None, num, rest[2..])) else None
    else if [rest[0]] == GAUGE then
      var action := GaugeAction(text);
      Some((GAUGE, action, if action == Some(SUB) then Negated(num) else num, rest[1..]))
    else None
  }

  function Decoded(data: Bytes, parse: FloatParser): Result<Metric, ()> {
    match Cut(data, COLON)
    case None => Err(())
    case Some(outer) =>
      match Cut(outer.1, BAR)
      case None => Err(())
      case Some(inner) =>
        match ParseNum(inner.0, parse)
        case None => Err(())
        case Some(num) =>
          match ParseKind(inner.0, num, inner.1)
          case None => Err(())
          case Some(k) =>
            match ParseRate(k.3, parse)
            case Err(_) => Err(())
            case Ok(rate) => Ok(Metric(Some(outer.0), Some(k.0), Some(Number(k.2)), k.1, rate))
  }

  /** Cutting, seen from an index up to which nothing was found. */
  lemma {:induction false} CutAt(bytes: Bytes, at: byte, i: nat)
    requires i <= |bytes| && at !in bytes[..i]
    ensures i < |bytes| && bytes[i] == at ==> Cut(bytes, at) == Some((bytes[..i], bytes[i + 1..]))
    ensures i == |bytes| ==> Cut(bytes, at) == None
  {
    if i > 0 {
      assert bytes[..i][0] == bytes[0] && bytes[..i][1..] == bytes[1..][..i - 1];
      assert forall b :: b in bytes[1..][..i - 1] ==> b in bytes[..i];
      CutAt(bytes[1..], at, i - 1);
      assert [bytes[0]] + bytes[1..][..i - 1] == bytes[..i];
      if i < |bytes| {
        assert bytes[1..][i..] == bytes[i + 1..];
      }
    }
  }

  predicate Occurs(data: Bytes, start: nat, end: nat, b: byte)
    requires start <= end <= |data|
  {
    start < end && (data[end - 1] == b || Occurs(data, start, end - 1, b))
  }

  lemma {:induction false} OccursIn(data: Bytes, start: nat, end: nat, b: byte)
    requires start <= end <= |data|
    ensures Occurs(data, start, end, b) <==> b in data[start..end]
    decreases end
  {
    if start < end {
      assert data[start..end] == data[start..end - 1] + [data[end - 1]];
      OccursIn(data, start, end - 1, b);
    }
  }

  lemma CutFrom(data: Bytes, start: nat, end: nat, at: byte)
    requires start <= end <= |data| && at !in data[start..end]
    ensures end < |data| && data[end] == at ==>
              Cut(data[start..], at) == Some((data[start..end], data[end + 1..]))
    ensures end == |data| ==> Cut(data[start..], at) == None
  {
    var i := end - start;
    assert data[start..][..i] == data[start..end];
    CutAt(data[start..], at, i);
    if end < |data| {
      assert data[start..][i + 1..] == data[end + 1..];
    }
  }

  /** The decoder's scan for a byte, which notices dots on the way. */
  method Scan(data: Bytes, start: nat, at: byte) returns (end: nat, dot: bool)
    requires start <= |data| && at != DOT
    ensures start <= end <= |data| && at !in data[start..end]
    ensures end < |data| ==> data[end] == at && Cut(data[start..], at) == Some((data[start..end], data[end + 1..]))
    ensures end == |data| ==> Cut(data[start..], at) == None
    ensures dot == (DOT in data[start..end])
  {
    end, dot := start, false;
    while end < |data| && data[end] != at
      invariant start <= end <= |data| && !Occurs(data, start, end, at)
      invariant dot == Occurs(data, start, end, DOT)
    {
      if data[end] == DOT {
        dot := true;
      }
      end := end + 1;
    }
    OccursIn(data, start, end, at);
    OccursIn(data, start, end, DOT);
    CutFrom(data, start, end, at);
  }

  method Decode(data: Bytes, parse: FloatParser) returns (res: Result<Metric, ()>)
    ensures res == Decoded(data, parse)
  {
    var colon, _ := Scan(data, 0, COLON);
    assert data[0..] == data && data[0..colon] == data[..colon];
    if colon == |data| {
      return Err(());
    }
    var start := colon + 1;
    var bar, isFloat := Scan(data, start, BAR);
    if bar == |data| {
      return Err(());
    }
    var text, rest := data[start..bar], data[bar + 1..];
    var num;
    if isFloat {
      var bits := parse(text);
      if bits.None? {
        return Err(());
      }
      num := Float(bits.value);
    } else {
      var n := Decimal.ParseSigned(text);
      if n.None? {
        return Err(());
      }
      num := Int(n.value);
    }
    var k := ParseKind(text, num, rest);
    if k.None? {
      return Err(());
    }
    var rate := ParseRate(k.value.3, parse);
    if rate.Err? {
      return Err(());
    }
    res := Ok(Metric(Some(data[..colon]), Some(k.value.0), Some(Number(k.value.2)), k.value.1, rate.value));
  }

  // ---------------------------------------------------------------- round trip

  lemma CutFirst(head: Bytes, at: byte, tail: Bytes)
    requires at !in head
    ensures Cut(head + ([at] + tail), at) == Some((head, tail))
  {
    var bytes := head + ([at] + tail);
    assert bytes[..|head|] == head && bytes[|head|] == at && bytes[|head| + 1..] == tail;
    CutAt(bytes, at, |head|);
  }

  lemma {:induction false} CutLacks(bytes: Bytes, at: byte)
    ensures Cut(bytes, at).Some? ==> at !in Cut(bytes, at).value.0
  {
    if bytes != [] && bytes[0] != at {
      CutLacks(bytes[1..], at);
    }
  }

  predicate IsKind(kind: Bytes) {
    kind == COUNTER || kind == HISTOGRAM || kind == SET || kind == TIMER
  }

  /** The integer metrics that come back as they went in. */
  predicate Survives(m: Metric, n: int) {
    && m.metric.Some? && m.kind.Some?
    && COLON !in m.metric.value
    && Decimal.IsI64(n)
    && if m.kind.value == GAUGE then n >= 0 && (m.action == None || m.action == Some(ADD) || m.action == Some(SUB))
       else IsKind(m.kind.value) && m.action == None
  }

  lemma SignedText(sign: Bytes, n: int)
    requires sign == [] || sign == [Decimal.PLUS] || sign == [Decimal.MINUS]
    ensures BAR !in sign + Decimal.PrintSigned(n) && DOT !in sign + Decimal.PrintSigned(n)
    ensures sign + Decimal.PrintSigned(n) != []
  {
    var digits := Decimal.Print(if n < 0 then -n else n);
    assert forall b :: b in digits ==> Decimal.IsDigit(b);
    assert forall b :: b in sign + Decimal.PrintSigned(n) ==>
             b in digits || b == Decimal.PLUS || b == Decimal.MINUS;
  }

  /** The sign in front of a number, read back. */
  lemma SignedParse(sign: Bytes, n: int)
    requires sign == [] || sign == [Decimal.PLUS] || sign == [Decimal.MINUS]
    requires Decimal.IsI64(n)
    ensures Decimal.ParseSigned(sign + Decimal.PrintSigned(n))
         == if sign == [] then Some(n)
            else if n < 0 then None
            else Some(if sign == [Decimal.PLUS] then n else -n)
    ensures GaugeAction(sign + Decimal.PrintSigned(n))
         == if sign == [Decimal.PLUS] then Some(ADD)
            else if sign == [Decimal.MINUS] || n < 0 then Some(SUB) else None
  {
    Decimal.ParsePrintSigned(n);
    var text := Decimal.PrintSigned(n);
    assert sign == [] ==> sign + text == text;
    assert n >= 0 ==> Decimal.IsDigit(text[0]);
    if sign != [] && n < 0 {
      assert (sign + text)[1..] == text;
      assert !Decimal.IsDigit(text[0]);
    }
  }

  predicate RateReturns(m: Metric, show: FloatPrinter, parse: FloatParser) {
    m.sampleRate == None
    || (m.sampleRate.value.Number? && m.sampleRate.value.num.Float?
        && parse(show(m.sampleRate.value.num.bits)) == Some(m.sampleRate.value.num.bits))
  }

  /** A sample rate comes back exactly when it is a float that its text is parsed back to. */
  lemma RateBack(m: Metric, show: FloatPrinter, parse: FloatParser)
    requires RateOf(m.sampleRate, show).Ok?
    ensures ParseRate(RateOf(m.sampleRate, show).value, parse) == Ok(m.sampleRate) <==> RateReturns(m, show, parse)
  {
    if m.sampleRate.Some? {
      var text := PrintNum(m.sampleRate.value.num, show);
      assert ([BAR, AT] + text)[2..] == text;
    }
  }

  lemma KindBack(text: Bytes, num: Num, kind: Bytes, rate: Bytes)
    requires kind == GAUGE || IsKind(kind)
    ensures ParseKind(text, num, kind + rate)
         == Some((kind, if kind == GAUGE then GaugeAction(text) else None,
                  if kind == GAUGE && GaugeAction(text) == Some(SUB) then Negated(num) else num, rate))
  {
    var rest := kind + rate;
    if kind == TIMER {
      assert rest[2..] == rate;
    } else {
      assert rest[1..] == rate && [rest[0]] == kind;
    }
  }

  /** What an encoded integer metric with a colon-free name and a known type is decoded to. */
  lemma DecodeEncoded(m: Metric, n: int, show: FloatPrinter, parse: FloatParser)
    requires m.value == Some(Number(Int(n))) && Encoded(m, show).Ok?
    requires COLON !in m.metric.value && (m.kind.value == GAUGE || IsKind(m.kind.value)) && Decimal.IsI64(n)
    ensures var kind, sign := m.kind.value, SignOf(m.kind.value, m.action);
            var rate := ParseRate(RateOf(m.sampleRate, show).value, parse);
            var action := if kind != GAUGE then None
                          else if sign == [Decimal.PLUS] then Some(ADD)
                          else if sign == [Decimal.MINUS] || n < 0 then Some(SUB) else None;
            Decoded(Encoded(m, show).value, parse)
            == if rate.Err? || (sign != [] && n < 0) then Err(())
               else
                 var num := if sign == [] && n < 0 && kind == GAUGE then Negated(Int(n)) else Int(n);
                 Ok(Metric(m.metric, m.kind, Some(Number(num)), action, rate.value))
  {
    var kind, rate := m.kind.value, RateOf(m.sampleRate, show).value;
    var sign := SignOf(kind, m.action);
    var text := sign + Decimal.PrintSigned(n);
    CutFirst(m.metric.value, COLON, text + ([BAR] + (kind + rate)));
    SignedText(sign, n);
    CutFirst(text, BAR, kind + rate);
    SignedParse(sign, n);
    if sign == [] || n >= 0 {
      KindBack(text, ParseNum(text, parse).value, kind, rate);
    }
  }

  /** What any decoded metric looks like. */
  lemma DecodedShape(data: Bytes, parse: FloatParser)
    requires Decoded(data, parse).Ok?
    ensures var m := Decoded(data, parse).value;
            && m.metric.Some? && COLON !in m.metric.value
            && m.kind.Some? && (m.kind.value == GAUGE || IsKind(m.kind.value))
            && (m.kind.value != GAUGE ==> m.action == None)
            && (m.action == None || m.action == Some(ADD) || m.action == Some(SUB))
            && m.value.Some? && m.value.value.Number?
            && (m.value.value.num.Int? ==> Decimal.IsI64(m.value.value.num.n))
  {
    CutLacks(data, COLON);
  }

  /** For integer values the codec is its own inverse on exactly these metrics: the name has no
      colon, it is a counter, histogram, set or timer without action, or a non-negative gauge with
      action add, sub or none, and its sample rate, if it has one, is a float that comes back. */
  lemma RoundTrip(m: Metric, n: int, show: FloatPrinter, parse: FloatParser)
    requires m.value == Some(Number(Int(n))) && Encoded(m, show).Ok?
    ensures Decoded(Encoded(m, show).value, parse) == Ok(m) <==> Survives(m, n) && RateReturns(m, show, parse)
  {
    var data := Encoded(m, show).value;
    if Decoded(data, parse) == Ok(m) {
      DecodedShape(data, parse);
    }
    if COLON !in m.metric.value && (m.kind.value == GAUGE || IsKind(m.kind.value)) && Decimal.IsI64(n) {
      DecodeEncoded(m, n, show, parse);
      RateBack(m, show, parse);
    }
  }

  /** A negative gauge never comes back: it turns into a subtraction or cannot be parsed. */
  lemma NegativeGauge(m: Metric, n: int, show: FloatPrinter, parse: FloatParser)
    requires m.value == Some(Number(Int(n))) && Encoded(m, show).Ok?
    requires COLON !in m.metric.value && m.kind == Some(GAUGE) && Decimal.IsI64(n) && n < 0
    ensures var back := Decoded(Encoded(m, show).value, parse);
            back.Err? || (back.value.action == Some(SUB) && back.value.value == Some(Number(Negated(Int(n)))))
  {
    DecodeEncoded(m, n, show, parse);
  }

  /** Nor does any metric with an integer sample rate: the rate is printed without a dot and always read
      as a float. */
  lemma IntegerRate(m: Metric, n: int, rate: int, show: FloatPrinter, parse: FloatParser)
    requires m.value == Some(Number(Int(n))) && m.metric.Some? && m.kind.Some?
    requires m.sampleRate == Some(Number(Int(rate)))
    ensures Encoded(m, show).Ok? && Decoded(Encoded(m, show).value, parse) != Ok(m)
  {
    RoundTrip(m, n, show, parse);
  }
}
