/** The `binflux` codec: a binary form of influx records. */
module BInflux {
  import opened Base
  import BigEndian

  const TYPE_I64: byte := 0
  const TYPE_F64: byte := 1
  const TYPE_STRING: byte := 2
  const TYPE_TRUE: byte := 3
  const TYPE_FALSE: byte := 4

  const LIMIT: nat := 0x1_0000

  type i64 = n: int | -0x8000_0000_0000_0000 <= n < 0x8000_0000_0000_0000

  /** A value inside a record; a float is its 64-bit pattern, `Other` anything that is not encodable. */
  datatype Scalar = I64(i: i64) | F64(bits: u64) | Bool(b: bool) | Text(s: Bytes) | Other

  /** The parts of a value that the codec looks at; a missing part, or one of another type, is None. */
  datatype Record = Record(
    measurement: Option<Bytes>, timestamp: Option<u64>,
    tags: Option<map<Bytes, Scalar>>, fields: Option<map<Bytes, Scalar>>)

  /** `order` is an order in which the map can be iterated over. */
  ghost predicate Enumerates(order: seq<Bytes>, entries: map<Bytes, Scalar>) {
    && (forall k :: k in order <==> k in entries)
    && (forall i, j :: 0 <= i < j < |order| ==> order[i] != order[j])
  }

  /** So the length of the order is the number of entries. */
  lemma {:induction false} EnumeratesAll(order: seq<Bytes>, entries: map<Bytes, Scalar>)
    requires Enumerates(order, entries)
    ensures |order| == |entries|
  {
    if order == [] {
      assert entries.Keys == {};
    } else {
      var rest := entries - {order[0]};
      assert entries.Keys == rest.Keys + {order[0]};
      EnumeratesAll(order[1..], rest);
    }
  }

  function EntriesOf(part: Option<map<Bytes, Scalar>>): map<Bytes, Scalar> {
    if part.Some? then part.value else map[]
  }

  // ---------------------------------------------------------------- encoding

  datatype EncodeError = MeasurementMissing | TimestampMissing | StringTooLong | TooMany | UnknownType

  function WriteString(s: Bytes): Result<Bytes, EncodeError> {
    if |s| < LIMIT then Ok(BigEndian.Encode(|s|, 2) + s) else Err(StringTooLong)
  }

  /** Two's complement. */
  function Unsigned(i: i64): u64 { if i < 0 then i + TWO_64 else i }

  function Signed(n: u64): i64 { if n < 0x8000_0000_0000_0000 then n else n - TWO_64 }

  function WriteScalar(v: Scalar): Result<Bytes, EncodeError> {
    match v
    case I64(i) => Ok([TYPE_I64] + BigEndian.Encode(Unsigned(i), 8))
    case F64(bits) => Ok([TYPE_F64] + BigEndian.Encode(bits, 8))
    case Bool(b) => Ok([if b then TYPE_TRUE else TYPE_FALSE])
    case Text(s) => Concat(Ok([TYPE_STRING]), WriteString(s))
    case Other => Err(UnknownType)
  }

  /** Two outputs one after the other; the first error wins. */
  function Concat(a: Result<Bytes, EncodeError>, b: Result<Bytes, EncodeError>): Result<Bytes, EncodeError> {
    if a.Err? then a else if b.Err? then b else Ok(a.value + b.value)
  }

  /** A tag that is not a string is passed over. */
  function WriteTag(key: Bytes, v: Scalar): Result<Bytes, EncodeError> {
    if v.Text? then Concat(WriteString(key), WriteString(v.s)) else Ok([])
  }

  function WriteTags(order: seq<Bytes>, tags: map<Bytes, Scalar>): Result<Bytes, EncodeError>
    requires forall k :: k in order ==> k in tags
  {
    if order == [] then Ok([])
    else
      var key := order[0];
      Concat(WriteTag(key, tags[key]), WriteTags(order[1..], tags))
  }

  function WriteField(key: Bytes, v: Scalar): Result<Bytes, EncodeError> {
    Concat(WriteString(key), WriteScalar(v))
  }

  function WriteFields(order: seq<Bytes>, fields: map<Bytes, Scalar>): Result<Bytes, EncodeError>
    requires forall k :: k in order ==> k in fields
  {
    if order == [] then Ok([])
    else
      var key := order[0];
      Concat(WriteField(key, fields[key]), WriteFields(order[1..], fields))
  }

  /** The count is that of the map: tags that are passed over are counted. */
  function WriteCount(n: nat): Result<Bytes, EncodeError> {
    if n < LIMIT then Ok(BigEndian.Encode(n, 2)) else Err(TooMany)
  }

  function EncodeTags(tags: map<Bytes, Scalar>, order: seq<Bytes>): Result<Bytes, EncodeError>
    requires Enumerates(order, tags)
  {
    Concat(WriteCount(|order|), WriteTags(order, tags))
  }

  function EncodeFields(fields: map<Bytes, Scalar>, order: seq<Bytes>): Result<Bytes, EncodeError>
    requires Enumerates(order, fields)
  {
    Concat(WriteCount(|order|), WriteFields(order, fields))
  }

  ghost predicate Orders(v: Record, tagOrder: seq<Bytes>, fieldOrder: seq<Bytes>) {
    Enumerates(tagOrder, EntriesOf(v.tags)) && Enumerates(fieldOrder, EntriesOf(v.fields))
  }

  function Head(measurement: Bytes, timestamp: u64): Result<Bytes, EncodeError> {
    Concat(Concat(Ok(BigEndian.Encode(0, 2)), WriteString(measurement)), Ok(BigEndian.Encode(timestamp, 8)))
  }

  /** A missing part is written like an empty one. */
  function Encoded(v: Record, tagOrder: seq<Bytes>, fieldOrder: seq<Bytes>): Result<Bytes, EncodeError>
    requires Orders(v, tagOrder, fieldOrder)
  {
    if v.measurement.None? then Err(MeasurementMissing)
    else if |v.measurement.value| >= LIMIT then Err(StringTooLong)
    else if v.timestamp.None? then Err(TimestampMissing)
    else
      Concat(Concat(Head(v.measurement.value, v.timestamp.value),
                    EncodeTags(EntriesOf(v.tags), tagOrder)),
             EncodeFields(EntriesOf(v.fields), fieldOrder))
  }

  lemma ConcatAssoc(a: Result<Bytes, EncodeError>, b: Result<Bytes, EncodeError>, c: Result<Bytes, EncodeError>)
    ensures Concat(Concat(a, b), c) == Concat(a, Concat(b, c))
  {
    if a.Ok? && b.Ok? && c.Ok? {
      Assoc(a.value, b.value, c.value);
    }
  }

  /** The encoder's loop over the tags, appending to what is already written. */
  method AppendTags(written: Bytes, tags: map<Bytes, Scalar>, order: seq<Bytes>)
    returns (res: Result<Bytes, EncodeError>)
    requires Enumerates(order, tags)
    ensures res == Concat(Ok(written), EncodeTags(tags, order))
  {
    if |order| >= LIMIT {
      return Err(TooMany);
    }
    var out := written + BigEndian.Encode(|order|, 2);
    ConcatAssoc(Ok(written), WriteCount(|order|), WriteTags(order, tags));
    var i := 0;
    assert order[0..] == order;
    while i < |order|
      invariant 0 <= i <= |order|
      invariant Concat(Ok(written), EncodeTags(tags, order)) == Concat(Ok(out), WriteTags(order[i..], tags))
    {
      var key := order[i];
      assert order[i..][0] == key && order[i..][1..] == order[i + 1..];
      ConcatAssoc(Ok(out), WriteTag(key, tags[key]), WriteTags(order[i + 1..], tags));
      var v := tags[key];
      if v.Text? {
        ConcatAssoc(Ok(out), WriteString(key), WriteString(v.s));
        if |key| >= LIMIT || |v.s| >= LIMIT {
          return Err(StringTooLong);
        }
        out := out + (BigEndian.Encode(|key|, 2) + key);
        out := out + (BigEndian.Encode(|v.s|, 2) + v.s);
      } else {
        assert out + [] == out;
      }
      i := i + 1;
    }
    assert order[i..] == [] && out + [] == out;
    res := Ok(out);
  }

  /** The encoder's loop over the fields. */
  method AppendFields(written: Bytes, fields: map<Bytes, Scalar>, order: seq<Bytes>)
    returns (res: Result<Bytes, EncodeError>)
    requires Enumerates(order, fields)
    ensures res == Concat(Ok(written), EncodeFields(fields, order))
  {
    if |order| >= LIMIT {
      return Err(TooMany);
    }
    var out := written + BigEndian.Encode(|order|, 2);
    ConcatAssoc(Ok(written), WriteCount(|order|), WriteFields(order, fields));
    var i := 0;
    assert order[0..] == order;
    while i < |order|
      invariant 0 <= i <= |order|
      invariant Concat(Ok(written), EncodeFields(fields, order)) == Concat(Ok(out), WriteFields(order[i..], fields))
    {
      var key := order[i];
      assert order[i..][0] == key && order[i..][1..] == order[i + 1..];
      ConcatAssoc(Ok(out), WriteField(key, fields[key]), WriteFields(order[i + 1..], fields));
      ConcatAssoc(Ok(out), WriteString(key), WriteScalar(fields[key]));
      if |key| >= LIMIT {
        return Err(StringTooLong);
      }
      out := out + (BigEndian.Encode(|key|, 2) + key);
      var v := WriteScalar(fields[key]);
      if v.Err? {
        return v;
      }
      out := out + v.value;
      i := i + 1;
    }
    assert order[i..] == [] && out + [] == out;
    res := Ok(out);
  }

  method Encode(v: Record, tagOrder: seq<Bytes>, fieldOrder: seq<Bytes>)
    returns (res: Result<Bytes, EncodeError>)
    requires Orders(v, tagOrder, fieldOrder)
    ensures res == Encoded(v, tagOrder, fieldOrder)
  {
    var out := BigEndian.Encode(0, 2);
    if v.measurement.None? {
      return Err(MeasurementMissing);
    }
    var m := v.measurement.value;
    if |m| >= LIMIT {
      return Err(StringTooLong);
    }
    out := out + (BigEndian.Encode(|m|, 2) + m);
    if v.timestamp.None? {
      return Err(TimestampMissing);
    }
    out := out + BigEndian.Encode(v.timestamp.value, 8);
    var tagged := AppendTags(out, EntriesOf(v.tags), tagOrder);
    if tagged.Err? {
      return tagged;
    }
    res := AppendFields(tagged.value, EntriesOf(v.fields), fieldOrder);
  }

  // ---------------------------------------------------------------- decoding

  /** `SliceOutOfRange` is the panic of a string that is announced longer than the data. */
  datatype DecodeError = UnexpectedEof | InvalidVersion | SliceOutOfRange

  /** A value read, and the bytes after it. */
  datatype Parsed<+T> = Parsed(value: T, rest: Bytes) | Failed(error: DecodeError)

  function ReadInt(width: nat, bytes: Bytes): Parsed<nat> {
    if |bytes| < width then Failed(UnexpectedEof)
    else Parsed(BigEndian.Decode(bytes[..width]), bytes[width..])
  }

  function ReadString(bytes: Bytes): Parsed<Bytes> {
    match ReadInt(2, bytes)
    case Failed(e) => Failed(e)
    case Parsed(l, rest) => if |rest| < l then Failed(SliceOutOfRange) else Parsed(rest[..l], rest[l..])
  }

  function ReadU64(bytes: Bytes): Parsed<u64> {
    match ReadInt(8, bytes)
    case Failed(e) => Failed(e)
    case Parsed(n, rest) =>
      BigEndian.EncodeDecode(bytes[..8]);
      BigEndian.Widths();
      Parsed(n, rest)
  }

  /** A field's value; None for an unknown kind, which is skipped without reading on. */
  function ReadScalar(bytes: Bytes): Parsed<Option<Scalar>> {
    if bytes == [] then Failed(UnexpectedEof)
    else
      var kind, rest := bytes[0], bytes[1..];
      if kind == TYPE_I64 then
        match ReadU64(rest) { case Failed(e) => Failed(e) case Parsed(n, r) => Parsed(Some(I64(Signed(n))), r) }
      else if kind == TYPE_F64 then
        match ReadU64(rest) { case Failed(e) => Failed(e) case Parsed(n, r) => Parsed(Some(F64(n)), r) }
      else if kind == TYPE_STRING then
        match ReadString(rest) { case Failed(e) => Failed(e) case Parsed(s, r) => Parsed(Some(Text(s)), r) }
      else if kind == TYPE_TRUE then Parsed(Some(Bool(true)), rest)
      else if kind == TYPE_FALSE then Parsed(Some(Bool(false)), rest)
      else Parsed(None, rest)
  }

  function ReadTags(count: nat, bytes: Bytes, tags: map<Bytes, Scalar>): Parsed<map<Bytes, Scalar>> {
    if count == 0 then Parsed(tags, bytes)
    else
      match ReadString(bytes)
      case Failed(e) => Failed(e)
      case Parsed(key, rest) =>
        match ReadString(rest)
        case Failed(e) => Failed(e)
        case Parsed(v, rest') => ReadTags(count - 1, rest', tags[key := Text(v)])
  }

  function ReadFields(count: nat, bytes: Bytes, fields: map<Bytes, Scalar>): Parsed<map<Bytes, Scalar>> {
    if count == 0 then Parsed(fields, bytes)
    else
      match ReadString(bytes)
      case Failed(e) => Failed(e)
      case Parsed(key, rest) =>
        match ReadScalar(rest)
        case Failed(e) => Failed(e)
        case Parsed(v, rest') =>
          ReadFields(count - 1, rest', if v.Some? then fields[key := v.value] else fields)
  }

  function ReadTagPart(bytes: Bytes): Parsed<map<Bytes, Scalar>> {
    match ReadInt(2, bytes)
    case Failed(e) => Failed(e)
    case Parsed(count, rest) => ReadTags(count, rest, map[])
  }

  function ReadFieldPart(bytes: Bytes): Parsed<map<Bytes, Scalar>> {
    match ReadInt(2, bytes)
    case Failed(e) => Failed(e)
    case Parsed(count, rest) => ReadFields(count, rest, map[])
  }

  /** Version, measurement, timestamp. */
  function ReadHead(bytes: Bytes): Parsed<(Bytes, u64)> {
    match ReadInt(2, bytes)
    case Failed(e) => Failed(e)
    case Parsed(version, rest) =>
      if version != 0 then Failed(InvalidVersion)
      else
        match ReadString(rest)
        case Failed(e) => Failed(e)
        case Parsed(m, rest') =>
          match ReadU64(rest')
          case Failed(e) => Failed(e)
          case Parsed(t, rest'') => Parsed((m, t), rest'')
  }

  /** Bytes after the last field are ignored. */
  function Decoded(data: Bytes): Result<Record, DecodeError> {
    match ReadHead(data)
    case Failed(e) => Err(e)
    case Parsed(head, rest) =>
      match ReadTagPart(rest)
      case Failed(e) => Err(e)
      case Parsed(tags, rest') =>
        match ReadFieldPart(rest')
        case Failed(e) => Err(e)
        case Parsed(fields, _) => Ok(Record(Some(head.0), Some(head.1), Some(tags), Some(fields)))
  }

  /** The decoder's loop over the tags. */
  method DecodeTags(bytes: Bytes) returns (res: Parsed<map<Bytes, Scalar>>)
    ensures res == ReadTagPart(bytes)
  {
    var count := ReadInt(2, bytes);
    if count.Failed? {
      return Failed(count.error);
    }
    var rest := count.rest;
    var tags: map<Bytes, Scalar> := map[];
    ghost var all := ReadTagPart(bytes);
    for i := 0 to count.value
      invariant all == ReadTags(count.value - i, rest, tags)
    {
      var key := ReadString(rest);
      if key.Failed? {
        return Failed(key.error);
      }
      var value := ReadString(key.rest);
      if value.Failed? {
        return Failed(value.error);
      }
      rest := value.rest;
      tags := tags[key.value := Text(value.value)];
    }
    res := Parsed(tags, rest);
  }

  /** The decoder's loop over the fields. */
  method DecodeFields(bytes: Bytes) returns (res: Parsed<map<Bytes, Scalar>>)
    ensures res == ReadFieldPart(bytes)
  {
    var count := ReadInt(2, bytes);
    if count.Failed? {
      return Failed(count.error);
    }
    var rest := count.rest;
    var fields: map<Bytes, Scalar> := map[];
    ghost var all := ReadFieldPart(bytes);
    for i := 0 to count.value
      invariant all == ReadFields(count.value - i, rest, fields)
    {
      var key := ReadString(rest);
      if key.Failed? {
        return Failed(key.error);
      }
      var value := ReadScalar(key.rest);
      if value.Failed? {
        return Failed(value.error);
      }
      rest := value.rest;
      if value.value.Some? {
        fields := fields[key.value := value.value.value];
      }
    }
    res := Parsed(fields, rest);
  }

  method Decode(data: Bytes) returns (res: Result<Record, DecodeError>)
    ensures res == Decoded(data)
  {
    var head := ReadHead(data);
    if head.Failed? {
      return Err(head.error);
    }
    var tags := DecodeTags(head.rest);
    if tags.Failed? {
      return Err(tags.error);
    }
    var fields := DecodeFields(tags.rest);
    if fields.Failed? {
      return Err(fields.error);
    }
    res := Ok(Record(Some(head.value.0), Some(head.value.1), Some(tags.value), Some(fields.value)));
  }

  // ---------------------------------------------------------------- prefix decoding

  lemma ReadIntPrefix(n: nat, width: nat, rest: Bytes)
    requires n < BigEndian.Pow256(width)
    ensures ReadInt(width, BigEndian.Encode(n, width) + rest) == Parsed(n, rest)
  {
    Halves(BigEndian.Encode(n, width), rest);
    BigEndian.DecodeEncode(n, width);
  }

  lemma ReadStringPrefix(s: Bytes, rest: Bytes)
    requires WriteString(s).Ok?
    ensures ReadString(WriteString(s).value + rest) == Parsed(s, rest)
  {
    BigEndian.Widths();
    var header := BigEndian.Encode(|s|, 2);
    Assoc(header, s, rest);
    ReadIntPrefix(|s|, 2, s + rest);
    Halves(s, rest);
  }

  lemma ReadU64Prefix(n: u64, rest: Bytes)
    ensures ReadU64(BigEndian.Encode(n, 8) + rest) == Parsed(n, rest)
  {
    BigEndian.Widths();
    ReadIntPrefix(n, 8, rest);
  }

  /** Each kind of value is read back, and nothing beyond it. */
  lemma ReadScalarPrefix(v: Scalar, rest: Bytes)
    requires WriteScalar(v).Ok?
    ensures ReadScalar(WriteScalar(v).value + rest) == Parsed(Some(v), rest)
  {
    var bytes := WriteScalar(v).value;
    assert bytes + rest == [bytes[0]] + (bytes[1..] + rest);
    match v {
      case I64(i) =>
        assert bytes[1..] == BigEndian.Encode(Unsigned(i), 8);
        ReadU64Prefix(Unsigned(i), rest);
      case F64(bits) =>
        assert bytes[1..] == BigEndian.Encode(bits, 8);
        ReadU64Prefix(bits, rest);
      case Text(s) =>
        assert bytes[1..] == WriteString(s).value;
        ReadStringPrefix(s, rest);
      case Bool(b) =>
        assert bytes[1..] == [] && [] + rest == rest;
    }
  }

  /** Entries put in, one after the other. */
  function Insert(order: seq<Bytes>, from: map<Bytes, Scalar>, into: map<Bytes, Scalar>): map<Bytes, Scalar>
    requires forall k :: k in order ==> k in from
  {
    if order == [] then into else Insert(order[1..], from, into[order[0] := from[order[0]]])
  }

  lemma {:induction false} InsertLookup(order: seq<Bytes>, from: map<Bytes, Scalar>, into: map<Bytes, Scalar>)
    requires forall k :: k in order ==> k in from
    ensures var r := Insert(order, from, into);
            (forall k :: k in r <==> k in order || k in into)
            && forall k :: k in r ==> r[k] == if k in order then from[k] else into[k]
  {
    if order != [] {
      InsertLookup(order[1..], from, into[order[0] := from[order[0]]]);
      assert forall k :: k in order <==> k == order[0] || k in order[1..];
    }
  }

  lemma InsertAll(order: seq<Bytes>, from: map<Bytes, Scalar>)
    requires Enumerates(order, from)
    ensures Insert(order, from, map[]) == from
  {
    InsertLookup(order, from, map[]);
  }

  predicate AllText(tags: map<Bytes, Scalar>) {
    forall k :: k in tags ==> tags[k].Text?
  }

  lemma {:induction false} ReadTagsPrefix(order: seq<Bytes>, tags: map<Bytes, Scalar>, into: map<Bytes, Scalar>,
                                          rest: Bytes)
    requires forall k :: k in order ==> k in tags
    requires AllText(tags) && WriteTags(order, tags).Ok?
    ensures ReadTags(|order|, WriteTags(order, tags).value + rest, into) == Parsed(Insert(order, tags, into), rest)
  {
    if order == [] {
      assert [] + rest == rest;
    } else {
      var key, v := order[0], tags[order[0]];
      var tail := WriteTags(order[1..], tags).value + rest;
      var k, s := WriteString(key).value, WriteString(v.s).value;
      Assoc(k + s, WriteTags(order[1..], tags).value, rest);
      Assoc(k, s, tail);
      ReadStringPrefix(key, s + tail);
      ReadStringPrefix(v.s, tail);
      ReadTagsPrefix(order[1..], tags, into[key := v], rest);
    }
  }

  lemma ReadFieldStep(count: nat, key: Bytes, v: Scalar, tail: Bytes, into: map<Bytes, Scalar>)
    requires count > 0 && WriteString(key).Ok? && WriteScalar(v).Ok?
    ensures ReadFields(count, (WriteString(key).value + WriteScalar(v).value) + tail, into)
         == ReadFields(count - 1, tail, into[key := v])
  {
    var k, s := WriteString(key).value, WriteScalar(v).value;
    Assoc(k, s, tail);
    ReadStringPrefix(key, s + tail);
    ReadScalarPrefix(v, tail);
  }

  lemma {:induction false} ReadFieldsPrefix(order: seq<Bytes>, fields: map<Bytes, Scalar>,
                                            into: map<Bytes, Scalar>, rest: Bytes)
    requires forall k :: k in order ==> k in fields
    requires WriteFields(order, fields).Ok?
    ensures ReadFields(|order|, WriteFields(order, fields).value + rest, into)
         == Parsed(Insert(order, fields, into), rest)
  {
    if order == [] {
      assert [] + rest == rest;
    } else {
      var key, v := order[0], fields[order[0]];
      var more := WriteFields(order[1..], fields).value;
      Assoc(WriteString(key).value + WriteScalar(v).value, more, rest);
      ReadFieldStep(|order|, key, v, more + rest, into);
      ReadFieldsPrefix(order[1..], fields, into[key := v], rest);
    }
  }

  // ---------------------------------------------------------------- round trip

  /** What decoding can give back: missing parts have become empty ones. */
  function Normal(v: Record): Record {
    v.(tags := Some(EntriesOf(v.tags)), fields := Some(EntriesOf(v.fields)))
  }

  lemma ReadHeadPrefix(m: Bytes, t: u64, rest: Bytes)
    requires |m| < LIMIT
    ensures Head(m, t).Ok?
    ensures ReadHead(Head(m, t).value + rest) == Parsed((m, t), rest)
  {
    var v, s, ts := BigEndian.Encode(0, 2), WriteString(m).value, BigEndian.Encode(t, 8);
    Assoc(v + s, ts, rest);
    Assoc(v, s, ts + rest);
    BigEndian.Widths();
    ReadIntPrefix(0, 2, s + (ts + rest));
    ReadStringPrefix(m, ts + rest);
    ReadU64Prefix(t, rest);
  }

  lemma ReadTagPartPrefix(tags: map<Bytes, Scalar>, order: seq<Bytes>, rest: Bytes)
    requires Enumerates(order, tags) && AllText(tags) && EncodeTags(tags, order).Ok?
    ensures ReadTagPart(EncodeTags(tags, order).value + rest) == Parsed(tags, rest)
  {
    var count, body := BigEndian.Encode(|order|, 2), WriteTags(order, tags).value;
    Assoc(count, body, rest);
    BigEndian.Widths();
    ReadIntPrefix(|order|, 2, body + rest);
    ReadTagsPrefix(order, tags, map[], rest);
    InsertAll(order, tags);
  }

  lemma ReadFieldPartPrefix(fields: map<Bytes, Scalar>, order: seq<Bytes>, rest: Bytes)
    requires Enumerates(order, fields) && EncodeFields(fields, order).Ok?
    ensures ReadFieldPart(EncodeFields(fields, order).value + rest) == Parsed(fields, rest)
  {
    var count, body := BigEndian.Encode(|order|, 2), WriteFields(order, fields).value;
    Assoc(count, body, rest);
    BigEndian.Widths();
    ReadIntPrefix(|order|, 2, body + rest);
    ReadFieldsPrefix(order, fields, map[], rest);
    InsertAll(order, fields);
  }

  lemma DecodeEncoded(v: Record, tagOrder: seq<Bytes>, fieldOrder: seq<Bytes>)
    requires Orders(v, tagOrder, fieldOrder) && Encoded(v, tagOrder, fieldOrder).Ok?
    requires AllText(EntriesOf(v.tags))
    ensures Decoded(Encoded(v, tagOrder, fieldOrder).value) == Ok(Normal(v))
  {
    var tags, fields := EntriesOf(v.tags), EntriesOf(v.fields);
    var m, t := v.measurement.value, v.timestamp.value;
    var h, a, b := Head(m, t).value, EncodeTags(tags, tagOrder).value, EncodeFields(fields, fieldOrder).value;
    Assoc(h, a, b);
    ReadHeadPrefix(m, t, a + b);
    ReadTagPartPrefix(tags, tagOrder, b);
    ReadFieldPartPrefix(fields, fieldOrder, []);
    assert b + [] == b;
  }

  lemma {:induction false} TagsReadAreText(count: nat, bytes: Bytes, tags: map<Bytes, Scalar>)
    requires AllText(tags)
    ensures ReadTags(count, bytes, tags).Parsed? ==> AllText(ReadTags(count, bytes, tags).value)
  {
    if count > 0 && ReadString(bytes).Parsed? {
      var key := ReadString(bytes);
      if ReadString(key.rest).Parsed? {
        var v := ReadString(key.rest);
        TagsReadAreText(count - 1, v.rest, tags[key.value := Text(v.value)]);
      }
    }
  }

  /** The codec gives back the record it was given, whatever order its maps are iterated in, exactly
      when all tags are strings: any other tag is counted but not written. */
  lemma RoundTrip(v: Record, tagOrder: seq<Bytes>, fieldOrder: seq<Bytes>)
    requires Orders(v, tagOrder, fieldOrder) && Encoded(v, tagOrder, fieldOrder).Ok?
    ensures Decoded(Encoded(v, tagOrder, fieldOrder).value) == Ok(Normal(v)) <==> AllText(EntriesOf(v.tags))
  {
    if AllText(EntriesOf(v.tags)) {
      DecodeEncoded(v, tagOrder, fieldOrder);
    } else {
      var data := Encoded(v, tagOrder, fieldOrder).value;
      if ReadHead(data).Parsed? && ReadInt(2, ReadHead(data).rest).Parsed? {
        var count := ReadInt(2, ReadHead(data).rest);
        TagsReadAreText(count.value, count.rest, map[]);
      }
    }
  }

  /** Different records, different bytes. */
  lemma Injective(v: Record, tv: seq<Bytes>, fv: seq<Bytes>, w: Record, tw: seq<Bytes>, fw: seq<Bytes>)
    requires Orders(v, tv, fv) && Orders(w, tw, fw)
    requires Encoded(v, tv, fv).Ok? && Encoded(v, tv, fv) == Encoded(w, tw, fw)
    requires AllText(EntriesOf(v.tags)) && AllText(EntriesOf(w.tags))
    ensures Normal(v) == Normal(w)
  {
    DecodeEncoded(v, tv, fv);
    DecodeEncoded(w, tw, fw);
  }

  /** One tag announced, none written, no fields. */
  function Broken(): Bytes {
    Head([], 0).value + (BigEndian.Encode(1, 2) + BigEndian.Encode(0, 2))
  }

  lemma BrokenFails()
    ensures Decoded(Broken()) == Err(UnexpectedEof)
  {
    var one, zero := BigEndian.Encode(1, 2), BigEndian.Encode(0, 2);
    ReadHeadPrefix([], 0, one + zero);
    BigEndian.Widths();
    ReadIntPrefix(1, 2, zero);
    var none: Bytes := [];
    assert zero + none == zero;
    ReadIntPrefix(0, 2, none);
    assert ReadString(zero) == Parsed(none[..0], none[0..]);
    assert ReadTags(1, zero, map[]) == Failed(UnexpectedEof);
  }

  /** The simplest record that does not survive: one tag that is no string. Its announced tag is
      sought in the fields' count, and the data ends. */
  lemma NonTextTagBreaks(key: Bytes, tag: Scalar)
    requires !tag.Text?
    ensures var v := Record(Some([]), Some(0), Some(map[key := tag]), None);
            Orders(v, [key], []) && Encoded(v, [key], []) == Ok(Broken())
            && Decoded(Broken()) == Err(UnexpectedEof)
  {
    var v := Record(Some([]), Some(0), Some(map[key := tag]), None);
    assert [key][1..] == [];
    var none: Bytes := [];
    assert WriteTags([key], map[key := tag]) == Ok(none + none);
    var h, one, zero := Head([], 0).value, BigEndian.Encode(1, 2), BigEndian.Encode(0, 2);
    assert EncodeTags(map[key := tag], [key]) == Ok(one + (none + none)) && one + (none + none) == one;
    assert EncodeFields(map[], []) == Ok(zero + none) && zero + none == zero;
    Assoc(h, one, zero);
    BrokenFails();
  }

  // ---------------------------------------------------------------- when encoding succeeds

  predicate ShortText(v: Scalar) { v.Text? ==> |v.s| < LIMIT }

  predicate TagFits(key: Bytes, v: Scalar) {
    v.Text? ==> |key| < LIMIT && |v.s| < LIMIT
  }

  predicate FieldFits(key: Bytes, v: Scalar) {
    |key| < LIMIT && !v.Other? && ShortText(v)
  }

  lemma {:induction false} WriteTagsOk(order: seq<Bytes>, tags: map<Bytes, Scalar>)
    requires forall k :: k in order ==> k in tags
    ensures WriteTags(order, tags).Ok? <==> forall k :: k in order ==> TagFits(k, tags[k])
  {
    if order != [] {
      WriteTagsOk(order[1..], tags);
      assert forall k :: k in order <==> k == order[0] || k in order[1..];
    }
  }

  lemma {:induction false} WriteFieldsOk(order: seq<Bytes>, fields: map<Bytes, Scalar>)
    requires forall k :: k in order ==> k in fields
    ensures WriteFields(order, fields).Ok? <==> forall k :: k in order ==> FieldFits(k, fields[k])
  {
    if order != [] {
      WriteFieldsOk(order[1..], fields);
      assert forall k :: k in order <==> k == order[0] || k in order[1..];
    }
  }

  /** Exactly which records can be encoded; the iteration order does not matter. */
  lemma EncodableExactly(v: Record, tagOrder: seq<Bytes>, fieldOrder: seq<Bytes>)
    requires Orders(v, tagOrder, fieldOrder)
    ensures Encoded(v, tagOrder, fieldOrder).Ok? <==>
              var tags, fields := EntriesOf(v.tags), EntriesOf(v.fields);
              && v.measurement.Some? && |v.measurement.value| < LIMIT && v.timestamp.Some?
              && |tags| < LIMIT && (forall k :: k in tags ==> TagFits(k, tags[k]))
              && |fields| < LIMIT && (forall k :: k in fields ==> FieldFits(k, fields[k]))
  {
    EnumeratesAll(tagOrder, EntriesOf(v.tags));
    EnumeratesAll(fieldOrder, EntriesOf(v.fields));
    WriteTagsOk(tagOrder, EntriesOf(v.tags));
    WriteFieldsOk(fieldOrder, EntriesOf(v.fields));
  }
}
