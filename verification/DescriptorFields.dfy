/** Writing typed fields into a descriptor and requiring them back out of it. */
module DescriptorFields {
  import opened Wrappers
  import opened Framing
  import opened Tokens
  import opened Descriptor

  predicate Distinct(texts: seq<Text>) { forall i, j :: 0 <= i < j < |texts| ==> texts[i] != texts[j] }

  lemma ValidText(value: Text)
    requires IsUtf8(value) || IsToken(value)
    ensures IsUtf8(value) && IsBytes(value)
  {
    hide PctEncode;
    if IsToken(value) {
      TokenIsPlain(value);
    }
    Utf8IsBytes(value);
  }

  /** Escape a valid string. */
  function Escaped(value: Text): Text
    requires IsUtf8(value) || IsToken(value)
  {
    ValidText(value);
    PctEncode(value)
  }

  // ------------------------------------------------------------------ reading

  function Need(m: Fields, key: Text): Result<Text, Descriptor.Fault>
  {
    if key in m then Success(m[key]) else Failure(MissingField)
  }

  function Check(ok: bool): Result<(), Descriptor.Fault> { if ok then Success(()) else Failure(BadField) }

  function NeedNumber(m: Fields, key: Text, max: nat): Result<nat, Descriptor.Fault>
  {
    var raw :- Need(m, key);
    match ParseUnsigned(raw, max)
    case Some(n) => Success(n)
    case None => Failure(BadField)
  }

  predicate KnownKeys(m: Fields, allowed: seq<Text>) { forall k :: k in m ==> k in allowed }

  // ------------------------------------------------------------------ writing

  lemma DecimalParses(n: nat, max: nat)
    requires n <= max
    ensures ParseUnsigned(Decimal(n), max) == Some(n)
    ensures Decimal(n) != [] && IsDigit(Decimal(n)[0]) && AllDigits(Decimal(n))
  {
    hide Decimal;
    DecimalDigits(n);
    assert Decimal(n)[0] != '+';
  }

  lemma TokenReads(key: Text, value: Text)
    requires KeyOk(key) && (IsUtf8(value) || IsToken(value))
    ensures Reads(Field(key, Escaped(value)), value)
  {
    hide PctEncode, PctDecode, IsUtf8;
    if IsToken(value) {
      TokenIsPlain(value);
    }
    EscapedReads(key, value);
  }

  /** The split fields of a list of texts written under a list of keys. */
  predicate Gives(m: Fields, keys: seq<Text>, values: seq<Text>)
  {
    && |keys| == |values| && KnownKeys(m, keys)
    && forall i :: 0 <= i < |keys| ==> Holds(m, keys[i], values[i])
  }

  lemma GivesOf(written: seq<Field>, keys: seq<Text>, values: seq<Text>)
    requires |written| == |keys| == |values| > 0
    requires forall i :: 0 <= i < |keys| ==> written[i].key == keys[i] && Reads(written[i], values[i])
    requires Distinct(keys)
    ensures SplitDescriptor(Render(written)).Success?
    ensures Gives(SplitDescriptor(Render(written)).value, keys, values)
  {
    hide SplitDescriptor, Render, Reads;
    DescriptorReadsBack(written, values);
    var m := SplitDescriptor(Render(written)).value;
    forall k | k in m
      ensures k in keys
    {
      assert Names(written, k);
      var i :| 0 <= i < |written| && written[i].key == k;
      assert keys[i] == k;
    }
  }

  lemma NeedFinds(m: Fields, key: Text, value: Text)
    requires Holds(m, key, value)
    ensures Need(m, key) == Success(value)
  {
  }

  lemma NumberFinds(m: Fields, key: Text, n: nat, max: nat)
    requires Holds(m, key, Decimal(n)) && n <= max
    ensures NeedNumber(m, key, max) == Success(n)
  {
    hide Decimal, ParseUnsigned;
    DecimalParses(n, max);
  }

  predicate AllUtf8(values: seq<Text>) { forall i :: 0 <= i < |values| ==> IsUtf8(values[i]) }

  predicate KeysOk(keys: seq<Text>) { keys != [] && Distinct(keys) && forall i :: 0 <= i < |keys| ==> KeyOk(keys[i]) }

  /**
   Every value written escaped under its key. Numbers and fixed labels hold no
   reserved byte, so for them this is the same text as writing them plainly.
   */
  function EscapedFields(keys: seq<Text>, values: seq<Text>): seq<Field>
    requires |keys| == |values| && AllUtf8(values)
  {
    seq(|keys|, i requires 0 <= i < |keys| => Field(keys[i], Escaped(values[i])))
  }

  lemma EscapedGives(keys: seq<Text>, values: seq<Text>)
    requires |keys| == |values| && AllUtf8(values) && KeysOk(keys)
    ensures SplitDescriptor(Render(EscapedFields(keys, values))).Success?
    ensures Gives(SplitDescriptor(Render(EscapedFields(keys, values))).value, keys, values)
  {
    hide SplitDescriptor, Render, Reads, Escaped, IsUtf8, Gives, KeyOk;
    var written := EscapedFields(keys, values);
    forall i | 0 <= i < |keys|
      ensures written[i].key == keys[i] && Reads(written[i], values[i])
    {
      TokenReads(keys[i], values[i]);
    }
    GivesOf(written, keys, values);
  }

  lemma TokenIsUtf8(t: Text)
    requires IsToken(t)
    ensures IsUtf8(t)
  {
    TokenIsPlain(t);
  }

  lemma DecimalIsUtf8(n: nat)
    ensures IsUtf8(Decimal(n))
  {
    hide Decimal, IsUtf8;
    DecimalDigits(n);
    AsciiIsUtf8(Decimal(n));
  }

  /** The `i`-th value is found under the `i`-th key. */
  lemma GivenAt(m: Fields, keys: seq<Text>, values: seq<Text>, i: nat)
    requires Gives(m, keys, values) && i < |keys|
    ensures Holds(m, keys[i], values[i])
  {
  }
}
