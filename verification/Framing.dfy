/**
 Length framing used by every durable record: each field is written as its
 byte length in canonical decimal, a colon, and the bytes themselves.

 A `Text` is the UTF-8 byte sequence of a Rust string, one `char` per byte, so
 its length is the byte length that the framing counts.
 */
module Framing {
  import opened Wrappers

  type Text = string

  datatype FrameFault = TooManyBytes | TooManyFields | NoColon | BadNumber | BadBoundary

  /** Largest `usize` on the supported 64-bit targets. */
  const USIZE_MAX: nat := 0xFFFF_FFFF_FFFF_FFFF

  // ---------------------------------------------------------------- decimals

  predicate IsDigit(c: char) { '0' <= c <= '9' }

  predicate AllDigits(t: Text) { forall i :: 0 <= i < |t| ==> IsDigit(t[i]) }

  function DigitValue(c: char): nat
    requires IsDigit(c)
  {
    (c - '0') as nat
  }

  function DigitChar(d: nat): char
    requires d < 10
  {
    '0' + d as char
  }

  /** `to_string` of an unsigned integer. */
  function Decimal(n: nat): Text
  {
    if n < 10 then [DigitChar(n)] else Decimal(n / 10) + [DigitChar(n % 10)]
  }

  /** Positional value of a digit string. */
  function DigitsValue(t: Text): nat
    requires AllDigits(t)
  {
    if t == [] then 0 else 10 * DigitsValue(t[..|t| - 1]) + DigitValue(t[|t| - 1])
  }

  /** Rust's unsigned `parse`: an optional plus sign, at least one digit, no overflow. */
  function ParseUnsigned(raw: Text, max: nat): Option<nat>
  {
    var digits := if raw != [] && raw[0] == '+' then raw[1..] else raw;
    if digits != [] && AllDigits(digits) && DigitsValue(digits) <= max
    then Some(DigitsValue(digits)) else None
  }

  /** `number`: parse, then refuse every spelling but the canonical one. */
  function Number(raw: Text, max: nat): Result<nat, FrameFault>
  {
    match ParseUnsigned(raw, max)
    case None => Failure(BadNumber)
    case Some(n) => if Decimal(n) == raw then Success(n) else Failure(BadNumber)
  }

  lemma {:induction false} DecimalDigits(n: nat)
    ensures AllDigits(Decimal(n)) && Decimal(n) != [] && DigitsValue(Decimal(n)) == n
  {
    if n >= 10 {
      DecimalDigits(n / 10);
      assert Decimal(n)[..|Decimal(n)| - 1] == Decimal(n / 10);
    }
  }

  function PowerOfTen(k: nat): nat
  {
    if k == 0 then 1 else 10 * PowerOfTen(k - 1)
  }

  lemma {:induction false} DecimalLength(n: nat, digits: nat)
    requires digits > 0 && n < PowerOfTen(digits)
    ensures |Decimal(n)| <= digits
  {
    if n >= 10 {
      DecimalLength(n / 10, digits - 1);
    }
  }

  /** `number` reads exactly the canonical decimals up to the type's maximum. */
  lemma NumberReadsCanonicalDecimals(raw: Text, n: nat, max: nat)
    ensures Number(raw, max) == Success(n) <==> raw == Decimal(n) && n <= max
  {
    DecimalDigits(n);
    assert Decimal(n)[0] != '+';
  }

  // ----------------------------------------------------------------- framing

  /** Index of the first `c`, or the length when there is none. */
  function Find(t: Text, c: char): (i: nat)
    ensures i <= |t| && (i < |t| ==> t[i] == c)
    ensures forall j :: 0 <= j < i ==> t[j] != c
  {
    if t == [] || t[0] == c then 0 else 1 + Find(t[1..], c)
  }

  predicate IsContinuation(c: char) { 0x80 <= c as int < 0xC0 }

  /** `str::is_char_boundary`. */
  predicate IsBoundary(t: Text, i: nat)
  {
    i == 0 || i == |t| || (i < |t| && !IsContinuation(t[i]))
  }

  function Frame(field: Text): Text { Decimal(|field|) + ":" + field }

  function Encode(fields: seq<Text>): Text
  {
    if fields == [] then [] else Frame(fields[0]) + Encode(fields[1..])
  }

  /** One framed field and what follows it. */
  datatype Cut = Cut(field: Text, rest: Text)

  /** Cut the first framed field off a nonempty text. */
  function CutField(raw: Text): (r: Result<Cut, FrameFault>)
    ensures r.Success? ==> |r.value.rest| < |raw|
  {
    var colon := Find(raw, ':');
    if colon == |raw| then Failure(NoColon)
    else
      var count :- Number(raw[..colon], USIZE_MAX);
      var text := raw[colon + 1..];
      if count > |text| || !IsBoundary(text, count) then Failure(BadBoundary)
      else Success(Cut(text[..count], text[count..]))
  }

  /** The fields read from `raw` when at most `budget` more are allowed. */
  function Fields(raw: Text, budget: nat): Result<seq<Text>, FrameFault>
    decreases |raw|
  {
    if raw == [] then Success([])
    else if budget == 0 then Failure(TooManyFields)
    else
      var cut :- CutField(raw);
      var more :- Fields(cut.rest, budget - 1);
      Success([cut.field] + more)
  }

  function DecodeSpec(raw: Text, maxBytes: nat, maxFields: nat): Result<seq<Text>, FrameFault>
  {
    if |raw| > maxBytes then Failure(TooManyBytes) else Fields(raw, maxFields)
  }

  /** What a decoding answers once `done` fields are read and `raw` is left. */
  ghost function Rest(done: seq<Text>, raw: Text, budget: nat): Result<seq<Text>, FrameFault>
  {
    var more :- Fields(raw, budget);
    Success(done + more)
  }

  lemma RestNothing(raw: Text, budget: nat)
    ensures Rest([], raw, budget) == Fields(raw, budget)
  {
    hide Fields;
    var more := Fields(raw, budget);
    if more.Success? {
      assert [] + more.value == more.value;
    }
  }

  /** Where the loop stops: at the end of the text, or at its first fault. */
  lemma RestStop(done: seq<Text>, raw: Text, budget: nat)
    ensures raw == [] ==> Rest(done, raw, budget) == Success(done)
    ensures raw != [] && budget == 0 ==> Rest(done, raw, budget) == Failure(TooManyFields)
    ensures raw != [] && budget > 0 && CutField(raw).Failure?
        ==> Rest(done, raw, budget) == Failure(CutField(raw).error)
  {
    hide CutField;
    assert done + [] == done;
  }

  lemma RestCut(done: seq<Text>, raw: Text, budget: nat)
    requires raw != [] && budget > 0 && CutField(raw).Success?
    ensures Rest(done, raw, budget)
         == Rest(done + [CutField(raw).value.field], CutField(raw).value.rest, budget - 1)
  {
    var cut := CutField(raw).value;
    var tail := Fields(cut.rest, budget - 1);
    if tail.Success? {
      assert done + ([cut.field] + tail.value) == done + [cut.field] + tail.value;
    }
  }

  /** The decoding loop: cut a field off, or stop at the first fault. */
  method Decode(raw: Text, maxBytes: nat, maxFields: nat) returns (r: Result<seq<Text>, FrameFault>)
    ensures r == DecodeSpec(raw, maxBytes, maxFields)
  {
    hide Fields, Rest, CutField;
    if |raw| > maxBytes {
      return Failure(TooManyBytes);
    }
    var rest, result := raw, [];
    RestNothing(raw, maxFields);
    while rest != []
      invariant |result| <= maxFields
      invariant Rest(result, rest, maxFields - |result|) == Fields(raw, maxFields)
      decreases |rest|
    {
      RestStop(result, rest, maxFields - |result|);
      if |result| == maxFields {
        return Failure(TooManyFields);
      }
      var cut := CutField(rest);
      if cut.Failure? {
        return Failure(cut.error);
      }
      RestCut(result, rest, maxFields - |result|);
      result := result + [cut.value.field];
      rest := cut.value.rest;
    }
    RestStop(result, rest, maxFields - |result|);
    return Success(result);
  }

  /** Splitting `digits:body` at its first colon. */
  lemma ColonAfterDigits(digits: Text, body: Text)
    requires AllDigits(digits)
    ensures Find(digits + ":" + body, ':') == |digits|
    ensures (digits + ":" + body)[..|digits|] == digits
    ensures (digits + ":" + body)[|digits| + 1..] == body
  {
    var raw := digits + ":" + body;
    assert raw[|digits|] == ':';
    assert forall i :: 0 <= i < |digits| ==> raw[i] == digits[i] && IsDigit(raw[i]);
  }

  lemma SplitConcat(a: Text, b: Text)
    ensures (a + b)[..|a|] == a && (a + b)[|a|..] == b
  {
  }

  lemma {:induction false} CutOfFrame(field: Text, rest: Text)
    requires |field| <= USIZE_MAX
    requires rest == [] || !IsContinuation(rest[0])
    ensures CutField(Frame(field) + rest) == Success(Cut(field, rest))
  {
    hide Decimal, Number, Find;
    var digits, body := Decimal(|field|), field + rest;
    DecimalDigits(|field|);
    ColonAfterDigits(digits, body);
    NumberReadsCanonicalDecimals(digits, |field|, USIZE_MAX);
    SplitConcat(field, rest);
    assert Frame(field) + rest == digits + ":" + body;
  }

  lemma Rejoin(raw: Text, colon: nat, count: nat)
    requires colon < |raw| && raw[colon] == ':' && colon + 1 + count <= |raw|
    ensures raw[..colon] + ":" + raw[colon + 1..][..count] + raw[colon + 1..][count..] == raw
  {
  }

  lemma {:induction false} FrameOfCut(raw: Text)
    requires CutField(raw).Success?
    ensures Frame(CutField(raw).value.field) + CutField(raw).value.rest == raw
  {
    hide Decimal, Number, Find, IsBoundary;
    var colon := Find(raw, ':');
    var count := Number(raw[..colon], USIZE_MAX).value;
    NumberReadsCanonicalDecimals(raw[..colon], count, USIZE_MAX);
    Rejoin(raw, colon, count);
  }

  /** An encoding never starts inside a multi-byte character. */
  lemma EncodeStart(fields: seq<Text>)
    ensures Encode(fields) == [] || !IsContinuation(Encode(fields)[0])
    ensures Encode(fields) == [] <==> fields == []
    ensures fields != [] ==> |fields[0]| + |Encode(fields[1..])| < |Encode(fields)|
  {
    if fields != [] {
      DecimalDigits(|fields[0]|);
      assert Encode(fields)[0] == Decimal(|fields[0]|)[0];
    }
  }

  lemma {:induction false} FieldsOfEncode(fields: seq<Text>, budget: nat)
    requires |fields| <= budget
    requires |Encode(fields)| <= USIZE_MAX
    ensures Fields(Encode(fields), budget) == Success(fields)
  {
    hide CutField, Frame;
    EncodeStart(fields);
    if fields != [] {
      EncodeStart(fields[1..]);
      CutOfFrame(fields[0], Encode(fields[1..]));
      FieldsOfEncode(fields[1..], budget - 1);
      assert [fields[0]] + fields[1..] == fields;
    }
  }

  lemma {:induction false} EncodeOfFields(raw: Text, budget: nat)
    requires Fields(raw, budget).Success?
    ensures Encode(Fields(raw, budget).value) == raw && |Fields(raw, budget).value| <= budget
    decreases |raw|
  {
    hide CutField, Frame;
    if raw != [] {
      FrameOfCut(raw);
      var cut := CutField(raw).value;
      EncodeOfFields(cut.rest, budget - 1);
      var more := Fields(cut.rest, budget - 1).value;
      assert ([cut.field] + more)[1..] == more;
    }
  }

  /**
   Framing is an exact bijection with its accepted texts: a text decodes to
   `fields` precisely when it is their encoding and both limits are kept.
   */
  lemma DecodesExactlyEncodings(raw: Text, fields: seq<Text>, maxBytes: nat, maxFields: nat)
    requires maxBytes <= USIZE_MAX
    ensures DecodeSpec(raw, maxBytes, maxFields) == Success(fields)
       <==> raw == Encode(fields) && |raw| <= maxBytes && |fields| <= maxFields
  {
    if |raw| <= maxBytes {
      if raw == Encode(fields) && |fields| <= maxFields {
        FieldsOfEncode(fields, maxFields);
      } else if Fields(raw, maxFields).Success? {
        EncodeOfFields(raw, maxFields);
      }
    }
  }

  /** Distinct field lists never share an encoding. */
  lemma EncodeInjective(a: seq<Text>, b: seq<Text>)
    requires Encode(a) == Encode(b) && |Encode(a)| <= USIZE_MAX
    ensures a == b
  {
    hide Encode, Fields;
    FieldsOfEncode(a, |a| + |b|);
    FieldsOfEncode(b, |a| + |b|);
  }

  /** An encoding is the concatenation of its frames. */
  lemma {:induction false} EncodeAppend(a: seq<Text>, b: seq<Text>)
    ensures Encode(a + b) == Encode(a) + Encode(b)
  {
    hide Frame;
    if a == [] {
      assert a + b == b;
    } else {
      EncodeAppend(a[1..], b);
      assert (a + b)[1..] == a[1..] + b;
    }
  }
}
