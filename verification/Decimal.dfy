/** Decimal numerals as Rust prints and parses them (`to_string`, `str::parse`). */
module Decimal {
  import opened Base

  const PLUS: byte := 43
  const MINUS: byte := 45

  predicate IsDigit(b: byte) { 48 <= b <= 57 }

  predicate AllDigits(bs: Bytes) {
    forall i :: 0 <= i < |bs| ==> IsDigit(bs[i])
  }

  function Print(n: nat): (bs: Bytes)
    ensures bs != [] && AllDigits(bs)
  {
    if n < 10 then [48 + n] else Print(n / 10) + [48 + n % 10]
  }

  /** The number a run of digits denotes. */
  function Value(bs: Bytes): nat
    requires AllDigits(bs)
  {
    if bs == [] then 0 else 10 * Value(bs[..|bs| - 1]) + (bs[|bs| - 1] - 48)
  }

  /** Parsing an unsigned integer: an optional plus sign, then digits, no larger than `max`. */
  function ParseUnsigned(bs: Bytes, max: nat): Option<nat> {
    var body := if |bs| > 1 && bs[0] == PLUS then bs[1..] else bs;
    if body == [] || !AllDigits(body) || Value(body) > max then None
    else Some(Value(body))
  }

  lemma {:induction false} ValuePrint(n: nat)
    ensures Value(Print(n)) == n
  {
    var bs := Print(n);
    if n < 10 {
      assert Value([]) == 0;
    } else {
      assert bs[..|bs| - 1] == Print(n / 10);
      ValuePrint(n / 10);
    }
  }

  lemma ParsePrint(n: nat, max: nat)
    ensures ParseUnsigned(Print(n), max) == if n <= max then Some(n) else None
  {
    ValuePrint(n);
    assert IsDigit(Print(n)[0]);
  }

  /** A signed 64-bit number as Rust prints it. */
  function PrintSigned(v: int): Bytes {
    if v < 0 then [MINUS] + Print(-v) else Print(v)
  }

  const MAX_I64: int := 0x7fff_ffff_ffff_ffff

  predicate IsI64(v: int) { -MAX_I64 - 1 <= v <= MAX_I64 }

  /** Parsing a signed 64-bit number: one optional sign, then digits, in range. */
  function ParseSigned(bs: Bytes): Option<int> {
    var signed := |bs| > 1 && (bs[0] == PLUS || bs[0] == MINUS);
    var body := if signed then bs[1..] else bs;
    if body == [] || !AllDigits(body) then None
    else
      var magnitude: int := Value(body);
      var v := if signed && bs[0] == MINUS then -magnitude else magnitude;
      if IsI64(v) then Some(v) else None
  }

  lemma ParsePrintSigned(v: int)
    requires IsI64(v)
    ensures ParseSigned(PrintSigned(v)) == Some(v)
    ensures v >= 0 ==> ParseSigned([PLUS] + PrintSigned(v)) == Some(v)
    ensures v >= 0 ==> ParseSigned([MINUS] + PrintSigned(v)) == Some(-v)
  {
    var digits := Print(if v < 0 then -v else v);
    ValuePrint(if v < 0 then -v else v);
    assert IsDigit(digits[0]);
    assert ([MINUS] + digits)[1..] == digits;
    assert ([PLUS] + digits)[1..] == digits;
  }
}
