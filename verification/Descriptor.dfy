/**
 The `key=value;key=value` descriptors of the access and binding rows: percent
 escaping, splitting, and the proof that they undo each other.
 */
module Descriptor {
  import opened Wrappers
  import opened Framing
  import opened Tokens

  datatype Fault = TruncatedEscape | BadEscape | NotUtf8 | NoEquals | EmptyKey | DuplicateKey | MissingField | BadField

  // ---------------------------------------------------------------- escaping

  /** Bytes that travel as themselves: printable, and none of `%`, `;`, `=`. */
  predicate IsPlain(c: char)
  {
    0x20 <= c as int <= 0x7E && c != '%' && c != ';' && c != '='
  }

  function HexDigit(d: nat): char
    requires d < 16
  {
    if d < 10 then '0' + d as char else 'A' + (d - 10) as char
  }

  /** One base-16 digit as `from_str_radix` reads it, either case. */
  function HexValue(c: char): (r: Option<nat>)
    ensures r.Some? ==> r.value < 16
  {
    if '0' <= c <= '9' then Some((c - '0') as nat)
    else if 'A' <= c <= 'F' then Some((c - 'A') as nat + 10)
    else if 'a' <= c <= 'f' then Some((c - 'a') as nat + 10)
    else None
  }

  /** A two-character escape body; a plus sign may stand for the first digit. */
  function EscapeValue(high: char, low: char): (r: Option<nat>)
    ensures r.Some? ==> r.value < 256
  {
    match (HexValue(high), HexValue(low))
    case (Some(h), Some(l)) => Some(16 * h + l)
    case (None, Some(l)) => if high == '+' then Some(l) else None
    case (_, None) => None
  }

  function Escape(c: char): Text
    requires c as int < 256
  {
    if IsPlain(c) then [c] else ['%', HexDigit(c as int / 16), HexDigit(c as int % 16)]
  }

  predicate IsBytes(t: Text) { forall i :: 0 <= i < |t| ==> t[i] as int < 256 }

  function PctEncode(raw: Text): Text
    requires IsBytes(raw)
  {
    if raw == [] then [] else Escape(raw[0]) + PctEncode(raw[1..])
  }

  method EncodeLoop(raw: Text) returns (out: Text)
    requires IsBytes(raw)
    ensures out == PctEncode(raw)
  {
    hide Escape;
    out := [];
    for i := 0 to |raw|
      invariant out + PctEncode(raw[i..]) == PctEncode(raw)
    {
      assert raw[i..][1..] == raw[i + 1..];
      assert out + (Escape(raw[i]) + PctEncode(raw[i + 1..])) == out + Escape(raw[i]) + PctEncode(raw[i + 1..]);
      out := out + Escape(raw[i]);
    }
  }

  /** The bytes an escaped text stands for, before the UTF-8 check. */
  function Unescape(raw: Text): Result<Text, Fault>
  {
    if raw == [] then Success([])
    else if raw[0] != '%' then
      var more :- Unescape(raw[1..]);
      Success([raw[0]] + more)
    else if |raw| < 3 then Failure(TruncatedEscape)
    else
      match EscapeValue(raw[1], raw[2])
      case None => Failure(BadEscape)
      case Some(b) =>
        var more :- Unescape(raw[3..]);
        Success([b as char] + more)
  }

  /** Length of the UTF-8 character that starts `t`; zero when none does. */
  function CharLength(t: Text): (n: nat)
    ensures n <= |t|
  {
    if t == [] then 0
    else
      var lead := t[0] as int;
      if lead < 0x80 then 1
      else if 0xC2 <= lead <= 0xDF && |t| >= 2 && IsContinuation(t[1]) then 2
      else if 0xE0 <= lead <= 0xEF && |t| >= 3 && IsContinuation(t[1]) && IsContinuation(t[2])
              && (lead == 0xE0 ==> t[1] as int >= 0xA0) && (lead == 0xED ==> (t[1] as int) < 0xA0)
      then 3
      else if 0xF0 <= lead <= 0xF4 && |t| >= 4 && IsContinuation(t[1]) && IsContinuation(t[2])
              && IsContinuation(t[3])
              && (lead == 0xF0 ==> t[1] as int >= 0x90) && (lead == 0xF4 ==> (t[1] as int) < 0x90)
      then 4
      else 0
  }

  predicate IsUtf8(t: Text)
  {
    t == [] || (CharLength(t) > 0 && IsUtf8(t[CharLength(t)..]))
  }

  function PctDecode(raw: Text): Result<Text, Fault>
  {
    var bytes :- Unescape(raw);
    if IsUtf8(bytes) then Success(bytes) else Failure(NotUtf8)
  }

  method DecodeLoop(raw: Text) returns (r: Result<Text, Fault>)
    ensures r == PctDecode(raw)
  {
    hide IsUtf8, EscapeValue, Unescape, Continue;
    var out: Text, i := [], 0;
    ContinueStart(raw);
    while i < |raw|
      invariant i <= |raw|
      invariant Continue(out, raw[i..]) == Unescape(raw)
    {
      if raw[i] == '%' {
        UnescapeFault(raw, i, out);
        if i + 2 >= |raw| {
          return Failure(TruncatedEscape);
        }
        var byte := EscapeValue(raw[i + 1], raw[i + 2]);
        if byte.None? {
          return Failure(BadEscape);
        }
        UnescapeStep(raw, i, out);
        out := out + [byte.value as char];
        i := i + 3;
      } else {
        UnescapePlainStep(raw, i, out);
        out := out + [raw[i]];
        i := i + 1;
      }
    }
    ContinueEnd(raw, out);
    return if IsUtf8(out) then Success(out) else Failure(NotUtf8);
  }

  lemma ContinueStart(raw: Text)
    ensures Continue([], raw[0..]) == Unescape(raw)
  {
    assert raw[0..] == raw;
    if Unescape(raw).Success? {
      assert [] + Unescape(raw).value == Unescape(raw).value;
    }
  }

  lemma ContinueEnd(raw: Text, out: Text)
    ensures Continue(out, raw[|raw|..]) == Success(out)
  {
    assert out + [] == out;
  }

  ghost function Continue(out: Text, rest: Text): Result<Text, Fault>
  {
    match Unescape(rest)
    case Success(more) => Success(out + more)
    case Failure(fault) => Failure(fault)
  }

  lemma UnescapePlainStep(raw: Text, i: nat, out: Text)
    requires i < |raw| && raw[i] != '%'
    ensures Continue(out, raw[i..]) == Continue(out + [raw[i]], raw[i + 1..])
  {
    var rest, more := raw[i..], Unescape(raw[i + 1..]);
    assert rest[1..] == raw[i + 1..];
    if more.Success? {
      assert out + ([raw[i]] + more.value) == out + [raw[i]] + more.value;
    }
  }

  lemma UnescapeFault(raw: Text, i: nat, out: Text)
    requires i < |raw| && raw[i] == '%'
    ensures i + 2 >= |raw| ==> Continue(out, raw[i..]) == Failure(TruncatedEscape)
    ensures i + 2 < |raw| && EscapeValue(raw[i + 1], raw[i + 2]).None?
        ==> Continue(out, raw[i..]) == Failure(BadEscape)
  {
    hide EscapeValue;
    var rest := raw[i..];
    assert rest[0] == raw[i];
    if i + 2 < |raw| {
      assert rest[1] == raw[i + 1] && rest[2] == raw[i + 2];
    }
  }

  lemma UnescapeStep(raw: Text, i: nat, out: Text)
    requires i + 2 < |raw| && raw[i] == '%' && EscapeValue(raw[i + 1], raw[i + 2]).Some?
    ensures Continue(out, raw[i..])
         == Continue(out + [EscapeValue(raw[i + 1], raw[i + 2]).value as char], raw[i + 3..])
  {
    hide EscapeValue;
    var rest, more := raw[i..], Unescape(raw[i + 3..]);
    var b := EscapeValue(raw[i + 1], raw[i + 2]).value as char;
    assert rest[3..] == raw[i + 3..] && rest[0] == '%' && rest[1] == raw[i + 1] && rest[2] == raw[i + 2];
    assert Unescape(rest) == match more case Success(m) => Success([b] + m) case Failure(f) => Failure(f);
    if more.Success? {
      assert out + ([b] + more.value) == out + [b] + more.value;
    }
  }

  lemma EscapeReadsBack(c: char)
    requires c as int < 256 && !IsPlain(c)
    ensures EscapeValue(HexDigit(c as int / 16), HexDigit(c as int % 16)) == Some(c as int)
  {
  }

  lemma {:induction false} UnescapeOfEncode(raw: Text)
    requires IsBytes(raw)
    ensures Unescape(PctEncode(raw)) == Success(raw)
  {
    hide EscapeValue, HexDigit;
    if raw != [] {
      UnescapeOfEncode(raw[1..]);
      var c, more := raw[0], PctEncode(raw[1..]);
      if IsPlain(c) {
        assert ([c] + more)[1..] == more;
      } else {
        EscapeReadsBack(c);
        assert (Escape(c) + more)[3..] == more;
      }
      assert [c] + raw[1..] == raw;
    }
  }

  lemma {:induction false} Utf8IsBytes(t: Text)
    requires IsUtf8(t)
    ensures IsBytes(t)
    decreases |t|
  {
    if t != [] {
      var n := CharLength(t);
      Utf8IsBytes(t[n..]);
      assert forall i :: n <= i < |t| ==> t[i] == t[n..][i - n];
    }
  }

  /** Escaping loses nothing: every string reads back as itself. */
  lemma EncodeReadsBack(raw: Text)
    requires IsUtf8(raw)
    ensures IsBytes(raw) && PctDecode(PctEncode(raw)) == Success(raw)
  {
    hide PctEncode, Unescape;
    Utf8IsBytes(raw);
    UnescapeOfEncode(raw);
  }

  predicate Clear(t: Text) { forall i :: 0 <= i < |t| ==> t[i] != ';' && t[i] != '=' }

  lemma {:induction false} EncodeIsClear(raw: Text)
    requires IsBytes(raw)
    ensures Clear(PctEncode(raw))
  {
    if raw != [] {
      EncodeIsClear(raw[1..]);
      EscapeIsClear(raw[0]);
    }
  }

  lemma EscapeIsClear(c: char)
    requires c as int < 256
    ensures Clear(Escape(c))
  {
    if !IsPlain(c) {
      var d := Escape(c);
      assert forall i :: 0 <= i < 3 ==> d[i] == '%' || '0' <= d[i] <= '9' || 'A' <= d[i] <= 'F';
    }
  }

  /** A text stands for itself exactly when it holds no percent sign. */
  lemma {:induction false} UnescapeIsShorter(raw: Text)
    requires Unescape(raw).Success?
    ensures |Unescape(raw).value| <= |raw|
    ensures Unescape(raw).value == raw <==> forall i :: 0 <= i < |raw| ==> raw[i] != '%'
    ensures |Unescape(raw).value| == |raw| <==> forall i :: 0 <= i < |raw| ==> raw[i] != '%'
  {
    if raw != [] {
      if raw[0] != '%' {
        UnescapeIsShorter(raw[1..]);
        assert forall i :: 0 < i < |raw| ==> raw[i] == raw[1..][i - 1];
      } else {
        UnescapeIsShorter(raw[3..]);
      }
    }
  }

  lemma {:induction false} UnescapePlain(raw: Text)
    requires forall i :: 0 <= i < |raw| ==> raw[i] != '%'
    ensures Unescape(raw) == Success(raw)
  {
    if raw != [] {
      UnescapePlain(raw[1..]);
      assert [raw[0]] + raw[1..] == raw;
    }
  }

  lemma {:induction false} PlainIsEncoded(raw: Text)
    requires forall i :: 0 <= i < |raw| ==> IsPlain(raw[i])
    ensures IsBytes(raw) && PctEncode(raw) == raw
  {
    if raw != [] {
      PlainIsEncoded(raw[1..]);
      assert Escape(raw[0]) == [raw[0]];
      assert [raw[0]] + raw[1..] == raw;
    }
  }

  lemma {:induction false} AsciiIsUtf8(t: Text)
    requires forall i :: 0 <= i < |t| ==> t[i] as int < 0x80
    ensures IsUtf8(t)
  {
    if t != [] {
      AsciiIsUtf8(t[1..]);
    }
  }

  lemma CharOfConcat(a: Text, b: Text)
    requires CharLength(a) > 0
    ensures CharLength(a + b) == CharLength(a)
  {
  }

  lemma {:induction false} Utf8Concat(a: Text, b: Text)
    requires IsUtf8(a) && IsUtf8(b)
    ensures IsUtf8(a + b)
    decreases |a|
  {
    hide CharLength;
    if a == [] {
      assert a + b == b;
    } else {
      var n := CharLength(a);
      CharOfConcat(a, b);
      Utf8Concat(a[n..], b);
      assert (a + b)[n..] == a[n..] + b;
    }
  }

  /** Tokens need no escape. */
  lemma TokenIsPlain(t: Text)
    requires IsToken(t)
    ensures IsUtf8(t) && IsBytes(t) && PctEncode(t) == t
  {
    AsciiIsUtf8(t);
    PlainIsEncoded(t);
  }

  // --------------------------------------------------------------- splitting

  type Fields = map<Text, Text>

  /** Read one `key=value` part into the fields collected so far. */
  function AddPart(part: Text, fields: Fields): Result<Fields, Fault>
  {
    var eq := Find(part, '=');
    if eq == |part| then Failure(NoEquals)
    else if eq == 0 then Failure(EmptyKey)
    else
      var value :- PctDecode(part[eq + 1..]);
      if part[..eq] in fields then Failure(DuplicateKey) else Success(fields[part[..eq] := value])
  }

  function SplitFrom(raw: Text, fields: Fields): Result<Fields, Fault>
    decreases |raw|
  {
    var end := Find(raw, ';');
    var more :- AddPart(raw[..end], fields);
    if end == |raw| then Success(more) else SplitFrom(raw[end + 1..], more)
  }

  function SplitDescriptor(raw: Text): Result<Fields, Fault> { SplitFrom(raw, map[]) }

  method SplitLoop(raw: Text) returns (r: Result<Fields, Fault>)
    ensures r == SplitDescriptor(raw)
  {
    hide AddPart;
    var rest, fields: Fields := raw, map[];
    while true
      invariant SplitFrom(rest, fields) == SplitDescriptor(raw)
      decreases |rest|
    {
      var end := Find(rest, ';');
      var more := AddPart(rest[..end], fields);
      if more.Failure? {
        return more;
      }
      fields := more.value;
      if end == |rest| {
        return Success(fields);
      }
      rest := rest[end + 1..];
    }
  }

  /** A field as written: its key and the text after the equals sign. */
  datatype Field = Field(key: Text, text: Text)

  function Render(fields: seq<Field>): Text
    requires fields != []
  {
    var head := fields[0].key + "=" + fields[0].text;
    if |fields| == 1 then head else head + ";" + Render(fields[1..])
  }

  predicate KeyOk(key: Text) { key != [] && Clear(key) }

  predicate Unbroken(text: Text) { forall i :: 0 <= i < |text| ==> text[i] != ';' }

  function ReadField(field: Field, fields: Fields): Result<Fields, Fault>
  {
    var value :- PctDecode(field.text);
    if field.key in fields then Failure(DuplicateKey) else Success(fields[field.key := value])
  }

  function ReadFields(written: seq<Field>, fields: Fields): Result<Fields, Fault>
  {
    if written == [] then Success(fields)
    else
      var more :- ReadField(written[0], fields);
      ReadFields(written[1..], more)
  }

  lemma FindFirst(before: Text, c: char, after: Text)
    requires forall i :: 0 <= i < |before| ==> before[i] != c
    ensures Find(before + [c] + after, c) == |before| && Find(before, c) == |before|
    ensures (before + [c] + after)[..|before|] == before
    ensures (before + [c] + after)[|before| + 1..] == after
  {
    var whole := before + [c] + after;
    assert whole[|before|] == c;
    assert forall i :: 0 <= i < |before| ==> whole[i] == before[i];
  }

  lemma PartOfField(field: Field, fields: Fields)
    requires KeyOk(field.key)
    ensures AddPart(field.key + "=" + field.text, fields) == ReadField(field, fields)
  {
    hide PctDecode;
    FindFirst(field.key, '=', field.text);
  }

  /** Fields without a semicolon in their text split back one by one. */
  lemma {:induction false} SplitOfRender(written: seq<Field>, fields: Fields)
    requires written != []
    requires forall i :: 0 <= i < |written| ==> KeyOk(written[i].key) && Unbroken(written[i].text)
    ensures SplitFrom(Render(written), fields) == ReadFields(written, fields)
  {
    hide AddPart, ReadField;
    var part := written[0].key + "=" + written[0].text;
    PartOfField(written[0], fields);
    assert forall i :: 0 <= i < |part| ==> part[i] != ';';
    if |written| == 1 {
      FindFirst(part, ';', []);
      assert part[..|part|] == part;
      assert written[1..] == [];
    } else {
      FindFirst(part, ';', Render(written[1..]));
      assert Render(written) == part + ";" + Render(written[1..]);
      var more := ReadField(written[0], fields);
      if more.Success? {
        SplitOfRender(written[1..], more.value);
      }
    }
  }

  predicate Holds(fields: Fields, key: Text, value: Text) { key in fields && fields[key] == value }

  /** Distinct keys: every decoded value is found under its own key, and nothing else is. */
  lemma {:induction false} ReadFieldsFinds(written: seq<Field>, values: seq<Text>, fields: Fields)
    requires |values| == |written|
    requires forall i :: 0 <= i < |written| ==> PctDecode(written[i].text) == Success(values[i])
    requires forall i :: 0 <= i < |written| ==> written[i].key !in fields
    requires forall i, j :: 0 <= i < j < |written| ==> written[i].key != written[j].key
    ensures ReadFields(written, fields).Success?
    ensures forall k :: k in fields ==> Holds(ReadFields(written, fields).value, k, fields[k])
    ensures forall i :: 0 <= i < |written| ==> Holds(ReadFields(written, fields).value, written[i].key, values[i])
  {
    hide PctDecode;
    if written != [] {
      var more := fields[written[0].key := values[0]];
      assert ReadField(written[0], fields) == Success(more);
      ReadFieldsFinds(written[1..], values[1..], more);
      var all := ReadFields(written, fields).value;
      forall k | k in fields
        ensures Holds(all, k, fields[k])
      {
        assert Holds(all, k, more[k]);
      }
      assert Holds(all, written[0].key, more[written[0].key]);
      forall i | 0 < i < |written|
        ensures Holds(all, written[i].key, values[i])
      {
        assert Holds(all, written[1..][i - 1].key, values[1..][i - 1]);
      }
    }
  }

  lemma {:induction false} ReadFieldsKeys(written: seq<Field>, fields: Fields)
    requires ReadFields(written, fields).Success?
    ensures forall k :: k in ReadFields(written, fields).value ==> k in fields || Names(written, k)
  {
    hide PctDecode;
    if written != [] {
      var more := ReadField(written[0], fields).value;
      ReadFieldsKeys(written[1..], more);
      forall k | k in ReadFields(written, fields).value
        ensures k in fields || Names(written, k)
      {
        if Names(written[1..], k) {
          var i :| 0 <= i < |written[1..]| && written[1..][i].key == k;
          assert written[i + 1].key == k;
        } else {
          assert k in more;
          assert k != written[0].key ==> k in fields;
        }
      }
    }
  }

  predicate Names(written: seq<Field>, key: Text)
  {
    exists i :: 0 <= i < |written| && written[i].key == key
  }

  /** A field that reads back as `value`. */
  predicate Reads(field: Field, value: Text)
  {
    KeyOk(field.key) && Unbroken(field.text) && PctDecode(field.text) == Success(value)
  }

  /** A list of readable fields under distinct keys splits into exactly those fields. */
  lemma DescriptorReadsBack(written: seq<Field>, values: seq<Text>)
    requires |values| == |written| > 0
    requires forall i :: 0 <= i < |written| ==> Reads(written[i], values[i])
    requires forall i, j :: 0 <= i < j < |written| ==> written[i].key != written[j].key
    ensures SplitDescriptor(Render(written)).Success?
    ensures forall i :: 0 <= i < |written| ==> Holds(SplitDescriptor(Render(written)).value, written[i].key, values[i])
    ensures forall k :: k in SplitDescriptor(Render(written)).value ==> Names(written, k)
  {
    hide PctDecode, Render, SplitFrom, ReadFields, Unbroken;
    SplitOfRender(written, map[]);
    ReadFieldsFinds(written, values, map[]);
    ReadFieldsKeys(written, map[]);
  }

  /** An escaped value reads back as the value. */
  lemma EscapedReads(key: Text, value: Text)
    requires KeyOk(key) && IsUtf8(value)
    ensures IsBytes(value) && Reads(Field(key, PctEncode(value)), value)
  {
    hide PctEncode, PctDecode, IsUtf8;
    EncodeReadsBack(value);
    EncodeIsClear(value);
  }

  // ------------------------------------------------- fields written unescaped

  /** Later parts never replace a field that was read earlier. */
  lemma {:induction false} SplitKeeps(raw: Text, fields: Fields, key: Text)
    requires SplitFrom(raw, fields).Success? && key in fields
    ensures Holds(SplitFrom(raw, fields).value, key, fields[key])
    decreases |raw|
  {
    hide PctDecode;
    var end := Find(raw, ';');
    var more := AddPart(raw[..end], fields).value;
    assert Holds(more, key, fields[key]);
    if end < |raw| {
      SplitKeeps(raw[end + 1..], more, key);
    }
  }

  /** The part of a text that splitting sees as one value. */
  function Piece(text: Text): Text { text[..Find(text, ';')] }

  lemma FirstPart(field: Field, rest: Text)
    requires KeyOk(field.key) && (rest == [] || rest[0] == ';')
    ensures var raw := field.key + "=" + field.text + rest;
            raw[..Find(raw, ';')] == field.key + "=" + Piece(field.text)
  {
    var raw, at := field.key + "=" + field.text + rest, |field.key| + 1 + Find(field.text, ';');
    assert forall i :: 0 <= i < at ==>
                         raw[i] == if i < |field.key| then field.key[i] else if i == |field.key| then '='
                                   else field.text[i - |field.key| - 1];
    assert at < |raw| ==> raw[at] == ';';
    assert raw[..at] == field.key + "=" + Piece(field.text);
  }

  /**
   However a field's text is broken up by semicolons of its own, a descriptor
   that splits at all binds the field's key to its first piece.
   */
  lemma {:induction false} SplitFindsPiece(before: seq<Field>, field: Field, rest: Text, fields: Fields)
    requires forall i :: 0 <= i < |before| ==> KeyOk(before[i].key) && Unbroken(before[i].text)
    requires KeyOk(field.key) && (rest == [] || rest[0] == ';')
    requires SplitFrom(Chain(before, field.key + "=" + field.text + rest), fields).Success?
    ensures PctDecode(Piece(field.text)).Success?
    ensures Holds(SplitFrom(Chain(before, field.key + "=" + field.text + rest), fields).value, field.key,
                  PctDecode(Piece(field.text)).value)
  {
    hide PctDecode, Piece;
    var last := field.key + "=" + field.text + rest;
    if before == [] {
      FirstPart(field, rest);
      PartOfField(Field(field.key, Piece(field.text)), fields);
      var end := Find(last, ';');
      var more := AddPart(last[..end], fields).value;
      if end < |last| {
        SplitKeeps(last[end + 1..], more, field.key);
      }
    } else {
      var part, tail := before[0].key + "=" + before[0].text, Chain(before[1..], last);
      assert forall i :: 0 <= i < |part| ==> part[i] != ';';
      FindFirst(part, ';', tail);
      assert Chain(before, last) == part + ";" + tail;
      SplitFindsPiece(before[1..], field, rest, AddPart(part, fields).value);
    }
  }

  /** Rendered fields followed by a text, joined by semicolons. */
  function Chain(before: seq<Field>, last: Text): Text
  {
    if before == [] then last else before[0].key + "=" + before[0].text + ";" + Chain(before[1..], last)
  }

  /** A value whose first piece decodes to the whole of it holds neither semicolon nor percent. */
  lemma PieceIsWhole(text: Text)
    requires PctDecode(Piece(text)) == Success(text)
    ensures forall i :: 0 <= i < |text| ==> text[i] != ';' && text[i] != '%'
  {
    hide IsUtf8;
    UnescapeIsShorter(Piece(text));
    assert Piece(text) == text;
  }

  // --------------------------------------- a text of any shape among the fields

  /** Fields read earlier matter to what follows only by the keys they take. */
  lemma {:induction false} SplitApart(raw: Text, base: Fields, fields: Fields)
    requires base.Keys !! fields.Keys
    ensures SplitFrom(raw, base + fields).Success?
       <==> SplitFrom(raw, fields).Success? && SplitFrom(raw, fields).value.Keys !! base.Keys
    ensures SplitFrom(raw, base + fields).Success? ==>
              SplitFrom(raw, base + fields).value == base + SplitFrom(raw, fields).value
    decreases |raw|
  {
    hide PctDecode;
    var end := Find(raw, ';');
    var alone, both := AddPart(raw[..end], fields), AddPart(raw[..end], base + fields);
    PartApart(raw[..end], base, fields);
    if alone.Success? && end < |raw| {
      if both.Success? {
        SplitApart(raw[end + 1..], base, alone.value);
      } else if SplitFrom(raw, fields).Success? {
        var key :| key in alone.value && key in base;
        SplitKeeps(raw[end + 1..], alone.value, key);
      }
    }
  }

  lemma PartApart(part: Text, base: Fields, fields: Fields)
    requires base.Keys !! fields.Keys
    ensures AddPart(part, base + fields).Success?
       <==> AddPart(part, fields).Success? && AddPart(part, fields).value.Keys !! base.Keys
    ensures AddPart(part, base + fields).Success? ==>
              AddPart(part, base + fields).value == base + AddPart(part, fields).value
  {
    hide PctDecode;
    var eq := Find(part, '=');
    if AddPart(part, fields).Success? {
      var value := PctDecode(part[eq + 1..]).value;
      assert AddPart(part, fields).value == fields[part[..eq] := value];
      assert (base + fields)[part[..eq] := value] == base + fields[part[..eq] := value];
    }
  }

  /** A semicolon between two texts splits them. */
  lemma {:induction false} SplitJoined(a: Text, b: Text, fields: Fields)
    ensures SplitFrom(a + ";" + b, fields)
         == match SplitFrom(a, fields)
            case Success(more) => SplitFrom(b, more)
            case Failure(fault) => Failure(fault)
    decreases |a|
  {
    hide AddPart;
    var end, whole := Find(a, ';'), a + ";" + b;
    if end == |a| {
      FindFirst(a, ';', b);
      assert a[..end] == a && whole == a + [';'] + b;
    } else {
      FindFirst(a[..end], ';', a[end + 1..] + ";" + b);
      assert whole == a[..end] + [';'] + (a[end + 1..] + ";" + b);
      assert whole[..end] == a[..end];
      if AddPart(a[..end], fields).Success? {
        SplitJoined(a[end + 1..], b, AddPart(a[..end], fields).value);
      }
    }
  }

  lemma {:induction false} RenderJoined(before: seq<Field>, after: seq<Field>)
    requires before != [] && after != []
    ensures Render(before + after) == Render(before) + ";" + Render(after)
  {
    var head := before[0].key + "=" + before[0].text;
    assert (before + after)[1..] == before[1..] + after;
    if |before| == 1 {
      assert before[1..] + after == after;
    } else {
      RenderJoined(before[1..], after);
      var rest, last := Render(before[1..]), Render(after);
      assert head + ";" + (rest + ";" + last) == head + ";" + rest + ";" + last;
    }
  }

  /**
   A text of any shape between two lists of readable fields: the whole splits
   exactly when the text splits on its own into keys that neither list has.
   */
  lemma SplitBetween(before: seq<Field>, first: seq<Text>, text: Text, after: seq<Field>, last: seq<Text>)
    requires before != [] && after != [] && |first| == |before| && |last| == |after|
    requires forall i :: 0 <= i < |before| ==> Reads(before[i], first[i])
    requires forall i :: 0 <= i < |after| ==> Reads(after[i], last[i])
    requires forall i, j :: 0 <= i < j < |before| ==> before[i].key != before[j].key
    requires forall i, j :: 0 <= i < j < |after| ==> after[i].key != after[j].key
    requires forall i :: 0 <= i < |before| ==> !Names(after, before[i].key)
    ensures var whole := SplitDescriptor(Render(before) + ";" + (text + ";" + Render(after)));
            var own := SplitDescriptor(text);
            && (whole.Success?
                <==> own.Success? && forall k :: k in own.value ==> !Names(before, k) && !Names(after, k))
            && (whole.Success? ==>
                  && (forall i :: 0 <= i < |before| ==> Holds(whole.value, before[i].key, first[i]))
                  && (forall i :: 0 <= i < |after| ==> Holds(whole.value, after[i].key, last[i]))
                  && (forall k :: k in own.value ==> Holds(whole.value, k, own.value[k]))
                  && (forall k :: k in whole.value ==> k in own.value || Names(before, k) || Names(after, k)))
  {
    hide SplitFrom, Render, Reads;
    DescriptorReadsBack(before, first);
    DescriptorReadsBack(after, last);
    var a, own, z := SplitDescriptor(Render(before)).value, SplitDescriptor(text), SplitDescriptor(Render(after)).value;
    SplitJoined(Render(before), text + ";" + Render(after), map[]);
    SplitJoined(text, Render(after), a);
    SplitApart(text, a, map[]);
    assert a + map[] == a;
    forall k | Names(before, k)
      ensures k in a && k !in z
    {
      var i :| 0 <= i < |before| && before[i].key == k;
    }
    forall k | Names(after, k)
      ensures k in z
    {
      var i :| 0 <= i < |after| && after[i].key == k;
    }
    if own.Success? && own.value.Keys !! a.Keys {
      SplitApart(Render(after), a + own.value, map[]);
      assert a + own.value + map[] == a + own.value;
      var whole := SplitDescriptor(Render(before) + ";" + (text + ";" + Render(after)));
      if whole.Success? {
        assert whole.value == a + own.value + z;
      } else {
        var k :| k in z && k in a + own.value;
        assert Names(after, k);
      }
    }
  }
}
