/** When a resolved configuration decodes back to itself: exactly when its labels allow. */
module ConfigRoundTrip {
  import opened Wrappers
  import opened Framing
  import opened TextOrder
  import opened Tokens
  import opened DescriptorFields
  import opened Actors
  import opened Bindings
  import opened Registry
  import opened EffectiveConfig
  import Descriptor

  const UNIT: char := 0x1F as char

  // ------------------------------------------------------------ unit separators

  predicate NoUnit(t: Text) { forall i :: 0 <= i < |t| ==> t[i] != UNIT }

  function Separators(t: Text): nat
  {
    if t == [] then 0 else (if t[0] == UNIT then 1 else 0) + Separators(t[1..])
  }

  lemma {:induction false} SeparatorsConcat(a: Text, b: Text)
    ensures Separators(a + b) == Separators(a) + Separators(b)
  {
    if a == [] {
      assert a + b == b;
    } else {
      SeparatorsConcat(a[1..], b);
      assert (a + b)[1..] == a[1..] + b;
    }
  }

  lemma {:induction false} NoSeparators(t: Text)
    ensures Separators(t) == 0 <==> NoUnit(t)
  {
    if t != [] {
      NoSeparators(t[1..]);
      assert forall i :: 0 < i < |t| ==> t[i] == t[1..][i - 1];
    }
  }

  /** A text has one more piece than it has separators. */
  lemma {:induction false} PiecesCount(t: Text)
    ensures |Units(t)| == 1 + Separators(t)
    decreases |t|
  {
    var end := Framing.Find(t, UNIT);
    assert NoUnit(t[..end]);
    NoSeparators(t[..end]);
    if end == |t| {
      assert t[..end] == t;
    } else {
      PiecesCount(t[end + 1..]);
      assert t == t[..end] + [UNIT] + t[end + 1..];
      SeparatorsConcat(t[..end] + [UNIT], t[end + 1..]);
      SeparatorsConcat(t[..end], [UNIT]);
      assert [UNIT][1..] == [];
    }
  }

  lemma {:induction false} SuffixedSeparators(parts: seq<Text>)
    ensures Separators(Suffixed(parts)) >= |parts|
    ensures Separators(Suffixed(parts)) == |parts| <==> forall i :: 0 <= i < |parts| ==> NoUnit(parts[i])
  {
    if parts != [] {
      SuffixedSeparators(parts[1..]);
      SeparatorsConcat([UNIT] + parts[0], Suffixed(parts[1..]));
      SeparatorsConcat([UNIT], parts[0]);
      assert [UNIT][1..] == [];
      NoSeparators(parts[0]);
      assert forall i :: 0 < i < |parts| ==> parts[i] == parts[1..][i - 1];
    }
  }

  lemma {:induction false} UnitsOfSuffixed(head: Text, parts: seq<Text>)
    requires NoUnit(head) && forall i :: 0 <= i < |parts| ==> NoUnit(parts[i])
    ensures Units(head + Suffixed(parts)) == [head] + parts
    decreases |parts|
  {
    if parts == [] {
      assert head + Suffixed(parts) == head;
      assert head[..|head|] == head;
      Descriptor.FindFirst(head, UNIT, []);
    } else {
      var rest := parts[0] + Suffixed(parts[1..]);
      assert head + Suffixed(parts) == head + [UNIT] + rest;
      Descriptor.FindFirst(head, UNIT, rest);
      UnitsOfSuffixed(parts[0], parts[1..]);
      assert [parts[0]] + parts[1..] == parts;
    }
  }

  // ------------------------------------------------------------------- bindings

  /** Labels that survive the canonical text: no unit separator, and no mode called `-`. */
  predicate CleanLabels(b: Binding)
  {
    NoUnit(b.unit) && (b.mode.Some? ==> NoUnit(b.mode.value)) && b.mode != Some("-")
  }

  lemma PartsAreClean(b: Binding)
    requires BindingOk(b)
    ensures (forall i :: 0 <= i < 13 ==> NoUnit(Parts(b)[i])) <==> NoUnit(b.unit) && NoUnit(ModeText(b.mode))
  {
    hide Descriptor.IsUtf8, ModeText;
    TokenHasNoUnit(b.endpoint);
    TokenHasNoUnit(b.escope);
    TokenHasNoUnit(b.equipment);
    TokenHasNoUnit(b.property);
    TokenHasNoUnit(b.pscope);
    TokenHasNoUnit(b.source);
    EnumsHaveNoUnit(b);
    assert Parts(b)[7] == b.unit && Parts(b)[8] == ModeText(b.mode);
  }

  lemma TokenHasNoUnit(t: Text)
    requires IsToken(t)
    ensures NoUnit(t)
  {
  }

  lemma EnumsHaveNoUnit(b: Binding)
    ensures NoUnit(ClassText(b.class_)) && NoUnit(RoleText(b.requested)) && NoUnit(RoleText(b.effective))
    ensures NoUnit(FeedbackText(b.feedback)) && NoUnit(StatusText(b.status))
  {
  }

  lemma {:induction false} ZipHolds(keys: seq<Text>, values: seq<Text>, i: nat)
    requires |keys| == |values| && Distinct(keys) && i < |keys|
    ensures Descriptor.Holds(Zip(keys, values), keys[i], values[i])
  {
    var n := |keys| - 1;
    if i < n {
      ZipHolds(keys[..n], values[..n], i);
    }
  }

  lemma PartKeysDiffer()
    ensures Distinct(PART_KEYS)
  {
  }

  lemma ZippedParts(b: Binding)
    ensures PartsHeld(Zip(PART_KEYS, Parts(b)), b)
    ensures Descriptor.Holds(Zip(PART_KEYS, Parts(b)), "mode", ModeText(b.mode))
  {
    hide Zip, Distinct, Descriptor.Holds, ModeText, ClassText, RoleText, FeedbackText, StatusText;
    PartKeysDiffer();
    ZipHolds(PART_KEYS, Parts(b), 0);
    ZipHolds(PART_KEYS, Parts(b), 1);
    ZipHolds(PART_KEYS, Parts(b), 2);
    ZipHolds(PART_KEYS, Parts(b), 3);
    ZipHolds(PART_KEYS, Parts(b), 4);
    ZipHolds(PART_KEYS, Parts(b), 5);
    ZipHolds(PART_KEYS, Parts(b), 6);
    ZipHolds(PART_KEYS, Parts(b), 7);
    ZipHolds(PART_KEYS, Parts(b), 8);
    ZipHolds(PART_KEYS, Parts(b), 9);
    ZipHolds(PART_KEYS, Parts(b), 10);
    ZipHolds(PART_KEYS, Parts(b), 11);
    ZipHolds(PART_KEYS, Parts(b), 12);
  }

  lemma ModeIsClean(b: Binding)
    requires BindingOk(b)
    ensures CleanLabels(b) <==> NoUnit(b.unit) && NoUnit(ModeText(b.mode)) && ParseMode(ModeText(b.mode)) == Success(b.mode)
  {
    hide Descriptor.IsUtf8, IsToken;
    ModeParses(b.mode);
  }

  /** Fourteen pieces come out exactly when no label adds a separator of its own. */
  lemma CanonicalPieces(b: Binding)
    requires BindingOk(b)
    ensures |Units(Canonical(b))| == 14 <==> NoUnit(b.unit) && NoUnit(ModeText(b.mode))
    ensures |Units(Canonical(b))| == 14 ==> Units(Canonical(b)) == ["binding-canonical-v2"] + Parts(b)
  {
    hide BindingOk, Units, Suffixed, ModeText, Parts, Separators;
    var version, parts := "binding-canonical-v2", Parts(b);
    PartsAreClean(b);
    PiecesCount(Canonical(b));
    SeparatorsConcat(version, Suffixed(parts));
    VersionHasNoUnit();
    NoSeparators(version);
    SuffixedSeparators(parts);
    PartsLength(b);
    if |Units(Canonical(b))| == 14 {
      UnitsOfSuffixed(version, parts);
    }
  }

  /** A binding's canonical text decodes back to it exactly when its labels are clean. */
  lemma CanonicalReadsBackExactly(b: Binding)
    requires BindingOk(b)
    ensures DecodeCanonical(Canonical(b)) == Success(b) <==> CleanLabels(b)
  {
    hide DecodeBinding, BindingOk, Units, Canonical, CleanLabels, ParseMode, ModeText, Zip, PartsHeld, Parts, NoUnit;
    CanonicalPieces(b);
    ModeIsClean(b);
    if |Units(Canonical(b))| == 14 {
      PartsLength(b);
      assert (["binding-canonical-v2"] + Parts(b))[1..] == Parts(b);
      ZippedParts(b);
      PartsDecode(Zip(PART_KEYS, Parts(b)), b);
      assert b.(mode := b.mode) == b;
    }
  }

  lemma PartsLength(b: Binding)
    ensures |Parts(b)| == 13
  {
  }

  lemma VersionHasNoUnit()
    ensures NoUnit("binding-canonical-v2")
  {
  }

  // -------------------------------------------------------------------- lengths

  function Total(fields: seq<Text>): nat
  {
    if fields == [] then 0 else |fields[0]| + Total(fields[1..])
  }

  lemma {:induction false} EncodedLength(fields: seq<Text>)
    requires forall i :: 0 <= i < |fields| ==> |fields[i]| < 10000
    ensures Total(fields) + 2 * |fields| <= |Encode(fields)| <= Total(fields) + 5 * |fields|
  {
    hide Decimal;
    if fields != [] {
      DecimalLength(|fields[0]|, 4);
      DecimalDigits(|fields[0]|);
      EncodedLength(fields[1..]);
    }
  }

  lemma {:induction false} SuffixedLength(parts: seq<Text>)
    ensures |Suffixed(parts)| == Total(parts) + |parts|
  {
    if parts != [] {
      SuffixedLength(parts[1..]);
    }
  }

  /** A bound per field bounds the total. */
  lemma {:induction false} TotalBound(fields: seq<Text>, n: nat)
    requires |fields| == n && forall i :: 0 <= i < |fields| ==> |fields[i]| <= 128
    ensures Total(fields) <= 128 * n
  {
    if fields != [] {
      TotalBound(fields[1..], n - 1);
    }
  }

  lemma CanonicalIsShort(b: Binding)
    requires BindingOk(b)
    ensures |Canonical(b)| <= 1700
  {
    hide Descriptor.IsUtf8, Suffixed, Total;
    var p := Parts(b);
    assert forall i :: 0 <= i < |p| ==> |p[i]| <= 128;
    TotalBound(p, 13);
    SuffixedLength(p);
  }

  // -------------------------------------------------------------------- entries

  predicate EntryOk(e: Entry) { IsToken(e.key) && IsDisplayName(e.name) && BindingOk(e.binding) }

  function EntryFields(e: Entry): seq<Text> { [e.key, e.name, SourceText(e.source), Canonical(e.binding)] }

  lemma EntryIsShort(e: Entry)
    requires EntryOk(e)
    ensures |EncodeEntry(e)| <= MAX_ENTRY
  {
    hide Encode, BindingOk, Canonical, IsDisplayName, IsToken;
    CanonicalIsShort(e.binding);
    EntryShape(e);
    EncodedLength(EntryFields(e));
    TotalOfFour(e.key, e.name, SourceText(e.source), Canonical(e.binding));
  }

  lemma EntryShape(e: Entry)
    requires EntryOk(e)
    ensures |e.key| <= 128 && |e.name| <= 256 && |SourceText(e.source)| <= 16
  {
    hide BindingOk;
  }

  lemma TotalOfFour(a: Text, b: Text, c: Text, d: Text)
    ensures Total([a, b, c, d]) == |a| + |b| + |c| + |d|
  {
    assert [d][1..] == [] && [c, d][1..] == [d] && [b, c, d][1..] == [c, d] && [a, b, c, d][1..] == [b, c, d];
    assert Total([d]) == |d| + Total([]);
    assert Total([c, d]) == |c| + Total([d]);
    assert Total([b, c, d]) == |b| + Total([c, d]);
  }

  lemma FramedReads(fields: seq<Text>, maxBytes: nat, maxFields: nat)
    requires maxBytes <= MAX_CONFIG && |Encode(fields)| <= maxBytes && |fields| <= maxFields
    ensures Framed(Encode(fields), maxBytes, maxFields) == Success(fields)
  {
    hide Encode, DecodeSpec;
    DecodesExactlyEncodings(Encode(fields), fields, maxBytes, maxFields);
  }

  lemma SourceParses(s: SourceKind)
    ensures ParseSource(SourceText(s)) == Some(s)
  {
  }

  /** An entry's bytes decode back to it exactly when its binding's labels are clean. */
  lemma EntryReadsBackExactly(e: Entry)
    requires EntryOk(e)
    ensures DecodeEntry(EncodeEntry(e)) == Success(e) <==> CleanLabels(e.binding)
  {
    hide Framed, DecodeCanonical, Canonical, Encode, IsDisplayName, IsToken, BindingOk, CleanLabels, ParseSource, SourceText;
    EntryIsShort(e);
    FramedReads(EntryFields(e), MAX_ENTRY, 4);
    CanonicalReadsBackExactly(e.binding);
    SourceParses(e.source);
  }

  /** Decoding an entry never changes its key. */
  lemma DecodedKey(e: Entry)
    requires EntryOk(e) && DecodeEntry(EncodeEntry(e)).Success?
    ensures DecodeEntry(EncodeEntry(e)).value.key == e.key
  {
    hide Framed, DecodeCanonical, Canonical, Encode, IsDisplayName, IsToken, BindingOk, ParseSource, SourceText;
    EntryIsShort(e);
    FramedReads(EntryFields(e), MAX_ENTRY, 4);
  }

  // ---------------------------------------------------------------- ordered maps

  lemma {:induction false} LookupFinds(entries: seq<Entry>, i: nat)
    requires Sorted(entries) && i < |entries|
    ensures Lookup(entries, entries[i].key) == Some(entries[i])
  {
    if i > 0 {
      LessTrichotomy(entries[0].key, entries[i].key);
      LookupFinds(entries[1..], i - 1);
    }
  }

  lemma {:induction false} LookupAbsent(entries: seq<Entry>, key: Text)
    requires forall i :: 0 <= i < |entries| ==> Less(entries[i].key, key)
    ensures Lookup(entries, key).None?
  {
    if entries != [] {
      LessTrichotomy(entries[0].key, key);
      LookupAbsent(entries[1..], key);
    }
  }

  lemma {:induction false} InsertAtEnd(entries: seq<Entry>, e: Entry)
    requires forall i :: 0 <= i < |entries| ==> Less(entries[i].key, e.key)
    ensures Insert(entries, e) == entries + [e]
  {
    if entries != [] {
      LessTrichotomy(entries[0].key, e.key);
      InsertAtEnd(entries[1..], e);
      assert [entries[0]] + (entries[1..] + [e]) == entries + [e];
    }
  }

  predicate EntriesOk(scope: Text, entries: seq<Entry>)
  {
    Sorted(entries) && forall i :: 0 <= i < |entries| ==> EntryOk(entries[i]) && InScope(entries[i], scope)
  }

  predicate InScope(e: Entry, scope: Text) { e.binding.pscope == scope && e.binding.escope == scope }

  /** Clean entries decode one after another into the same ordered map. */
  lemma {:induction false} EntriesRead(scope: Text, entries: seq<Entry>, i: nat)
    requires EntriesOk(scope, entries) && i <= |entries|
    requires forall k :: 0 <= k < |entries| ==> CleanLabels(entries[k].binding)
    ensures DecodeEntries(EncodeEntries(entries)[i..], scope, entries[..i]) == Success(entries)
    decreases |entries| - i
  {
    hide DecodeEntry, EncodeEntry, EntryOk, CleanLabels, Less, Insert, Lookup;
    var raws := EncodeEntries(entries);
    if i == |entries| {
      assert entries[..i] == entries && raws[i..] == [];
    } else {
      var e := entries[i];
      assert EntryOk(e) && InScope(e, scope);
      EntryReadsBackExactly(e);
      LookupAbsent(entries[..i], e.key);
      InsertAtEnd(entries[..i], e);
      assert entries[..i] + [e] == entries[..i + 1];
      assert raws[i..][0] == EncodeEntry(e) && raws[i..][1..] == raws[i + 1..];
      EntriesRead(scope, entries, i + 1);
    }
  }

  /** Whatever a list decodes to holds each decoded entry under its key. */
  lemma {:induction false} DecodedEntryIsKept(raws: seq<Text>, scope: Text, entries: seq<Entry>, key: Text, e: Entry)
    requires Sorted(entries) && DecodeEntries(raws, scope, entries).Success? && Lookup(entries, key) == Some(e)
    ensures Lookup(DecodeEntries(raws, scope, entries).value, key) == Some(e)
    decreases |raws|
  {
    hide DecodeEntry, Less, Insert, Lookup;
    if raws != [] {
      var d := DecodeEntry(raws[0]).value;
      InsertIsMapUpdate(entries, d, key);
      DecodedEntryIsKept(raws[1..], scope, Insert(entries, d), key, e);
    }
  }

  lemma {:induction false} DecodedEntryIsThere(raws: seq<Text>, scope: Text, entries: seq<Entry>, i: nat)
    requires Sorted(entries) && DecodeEntries(raws, scope, entries).Success? && i < |raws|
    ensures DecodeEntry(raws[i]).Success?
    ensures var e := DecodeEntry(raws[i]).value;
            Lookup(DecodeEntries(raws, scope, entries).value, e.key) == Some(e)
    decreases |raws|
  {
    hide DecodeEntry, Less, Insert, Lookup;
    var d := DecodeEntry(raws[0]).value;
    InsertIsMapUpdate(entries, d, d.key);
    if i == 0 {
      DecodedEntryIsKept(raws[1..], scope, Insert(entries, d), d.key, d);
    } else {
      DecodedEntryIsThere(raws[1..], scope, Insert(entries, d), i - 1);
    }
  }

  /** If the list decodes to the entries it came from, each of them had clean labels. */
  lemma ReadEntriesAreClean(scope: Text, entries: seq<Entry>, i: nat)
    requires EntriesOk(scope, entries) && i < |entries|
    requires DecodeEntries(EncodeEntries(entries), scope, []) == Success(entries)
    ensures CleanLabels(entries[i].binding)
  {
    hide DecodeEntry, EncodeEntry, EntryOk, CleanLabels, Less, Insert, Lookup, DecodeEntries;
    assert EntryOk(entries[i]);
    DecodedEntryIsThere(EncodeEntries(entries), scope, [], i);
    DecodedKey(entries[i]);
    LookupFinds(entries, i);
    EntryReadsBackExactly(entries[i]);
  }

  // ---------------------------------------------------------------------- facts

  /** A finding as the registry's writer makes it: a hashed identity and an actor reference. */
  predicate FactOk(f: Fact)
  {
    && IsToken(f.id) && |f.id| == 24 && f.generation <= U32_MAX && 34 < |f.actor| <= 428 && IsToken(f.digest)
    && |f.digest| == 16
  }

  lemma WriterMakesFacts(b: Binding, revision: nat, a: Actor, digest: Text)
    requires ActorOk(a) && revision <= U32_MAX && IsToken(digest) && |digest| == 16
    ensures FactOk(FactOf(CitedOf(FindingFor(b, revision, a, digest), revision)))
  {
    hide Decimal, Canonical, Summary;
    ActorReferenceFits(a);
    Descriptor.TokenIsPlain(a.capability);
  }

  function FactFields(f: Fact): seq<Text> { [f.id, Decimal(f.generation), f.actor, f.digest] }

  lemma FactLength(f: Fact)
    requires FactOk(f)
    ensures 80 <= |EncodeFact(f)| <= MAX_ENTRY
  {
    hide Encode, Decimal, IsToken;
    U32Digits(f.generation);
    DecimalDigits(f.generation);
    EncodedLength(FactFields(f));
    TotalOfFour(f.id, Decimal(f.generation), f.actor, f.digest);
  }

  lemma FactReads(f: Fact)
    requires FactOk(f)
    ensures DecodeFact(EncodeFact(f)) == Success(f)
  {
    hide Encode, Decimal, IsToken, Framed, Number;
    FactLength(f);
    FramedReads(FactFields(f), MAX_ENTRY, 4);
    NumberReadsCanonicalDecimals(Decimal(f.generation), f.generation, U32_MAX);
  }

  lemma {:induction false} FactsRead(facts: seq<Fact>, i: nat)
    requires i <= |facts| && forall k :: 0 <= k < |facts| ==> FactOk(facts[k])
    ensures DecodeFacts(EncodeFacts(facts)[i..]) == Success(facts[i..])
    decreases |facts| - i
  {
    hide DecodeFact, EncodeFact, FactOk;
    var raws := EncodeFacts(facts);
    if i == |facts| {
      assert facts[i..] == [];
    } else {
      assert FactOk(facts[i]);
      FactReads(facts[i]);
      assert raws[i..][0] == EncodeFact(facts[i]) && raws[i..][1..] == raws[i + 1..];
      FactsRead(facts, i + 1);
      assert [facts[i]] + facts[i + 1..] == facts[i..];
    }
  }

  lemma {:induction false} TotalAtLeast(fields: seq<Text>)
    requires forall i :: 0 <= i < |fields| ==> |fields[i]| >= 80
    ensures Total(fields) >= 80 * |fields|
  {
    if fields != [] {
      TotalAtLeast(fields[1..]);
    }
  }

  /** The reader's limit of 256 facts cannot bite: that many never fit the writer's bytes. */
  lemma FactsFit(facts: seq<Fact>)
    requires forall k :: 0 <= k < |facts| ==> FactOk(facts[k])
    requires |Encode(EncodeFacts(facts))| <= MAX_CONFIG
    ensures |facts| < MAX_FACTS
  {
    hide Encode, FactOk, EncodeFact, Total;
    var raws := EncodeFacts(facts);
    forall i | 0 <= i < |raws|
      ensures 80 <= |raws[i]| <= MAX_ENTRY
    {
      assert FactOk(facts[i]);
      FactLength(facts[i]);
    }
    EncodedLength(raws);
    TotalAtLeast(raws);
  }

  // ------------------------------------------------------------- configurations

  predicate ConfigOk(c: Config)
  {
    && IsToken(c.scope) && c.revision <= U32_MAX && EntriesOk(c.scope, c.entries)
    && 0 < |c.entries| <= MAX_ENTRIES && (forall k :: 0 <= k < |c.facts| ==> FactOk(c.facts[k]))
    && |CanonicalBytes(c)| <= MAX_CONFIG
  }

  lemma {:induction false} EncodeContains(fields: seq<Text>, i: nat)
    requires i < |fields|
    ensures |fields[i]| < |Encode(fields)|
  {
    EncodeStart(fields);
    if i > 0 {
      EncodeContains(fields[1..], i - 1);
    }
  }

  lemma ConfigFrames(c: Config)
    requires ConfigOk(c)
    ensures Framed(CanonicalBytes(c), MAX_CONFIG, 6) == Success(ConfigFields(c))
    ensures Framed(Encode(EncodeEntries(c.entries)), MAX_CONFIG, MAX_ENTRIES) == Success(EncodeEntries(c.entries))
    ensures Framed(Encode(EncodeFacts(c.facts)), MAX_CONFIG, MAX_FACTS) == Success(EncodeFacts(c.facts))
  {
    hide Encode, Framed, Decimal, FactOk, EntriesOk, IsToken, EncodeEntry, EncodeFact;
    FramedReads(ConfigFields(c), MAX_CONFIG, 6);
    EncodeContains(ConfigFields(c), 4);
    EncodeContains(ConfigFields(c), 5);
    FramedReads(EncodeEntries(c.entries), MAX_CONFIG, MAX_ENTRIES);
    FactsFit(c.facts);
    FramedReads(EncodeFacts(c.facts), MAX_CONFIG, MAX_FACTS);
  }

  /**
   A configuration within its limits decodes back to itself exactly when the
   labels of all its bindings are clean.
   */
  lemma ConfigReadsBackExactly(c: Config)
    requires ConfigOk(c)
    ensures DecodeConfig(CanonicalBytes(c)) == Success(c)
       <==> forall i :: 0 <= i < |c.entries| ==> CleanLabels(c.entries[i].binding)
  {
    hide Encode, Framed, Decimal, Number, FactOk, EntriesOk, IsToken, DecodeEntries, DecodeFacts, CleanLabels,
         CanonicalBytes, EncodeEntries, EncodeFacts;
    ConfigFrames(c);
    NumberReadsCanonicalDecimals(Decimal(c.revision), c.revision, U32_MAX);
    FactsRead(c.facts, 0);
    assert c.facts[0..] == c.facts && EncodeFacts(c.facts)[0..] == EncodeFacts(c.facts);
    var read := DecodeEntries(EncodeEntries(c.entries), c.scope, []);
    if forall i :: 0 <= i < |c.entries| ==> CleanLabels(c.entries[i].binding) {
      EntriesRead(c.scope, c.entries, 0);
      assert c.entries[..0] == [] && EncodeEntries(c.entries)[0..] == EncodeEntries(c.entries);
    } else if DecodeConfig(CanonicalBytes(c)) == Success(c) {
      var i :| 0 <= i < |c.entries| && !CleanLabels(c.entries[i].binding);
      ReadEntriesAreClean(c.scope, c.entries, i);
    }
  }

  // ------------------------------------------------------------------ resolving

  predicate ItemsOk(items: seq<Entry>) { forall i :: 0 <= i < |items| ==> EntryOk(items[i]) }

  /** The item a source names for a key, tagged with that source. */
  function Named(items: seq<Entry>, key: Text, source: SourceKind): Option<Entry>
  {
    if items == [] then None
    else if items[0].key == key then Some(items[0].(source := source))
    else Named(items[1..], key, source)
  }

  /** A layer replaces exactly the keys it names, and keeps what an ordered map must keep. */
  lemma {:induction false} LayerMeans(entries: seq<Entry>, items: seq<Entry>, source: SourceKind, scope: Text,
                                      seen: set<Text>, key: Text)
    requires EntriesOk(scope, entries) && ItemsOk(items)
    requires Layer(entries, items, source, scope, seen).Success?
    ensures EntriesOk(scope, Layer(entries, items, source, scope, seen).value)
    ensures Lookup(Layer(entries, items, source, scope, seen).value, key)
         == if key !in seen && Named(items, key, source).Some? then Named(items, key, source) else Lookup(entries, key)
    ensures |Layer(entries, items, source, scope, seen).value| <= |entries| + if source.Domain? then |items| else 0
    decreases |items|
  {
    hide Insert, Lookup, Less, Sorted, BindingOk, IsToken, IsDisplayName;
    if items != [] {
      var e := items[0].(source := source);
      assert EntryOk(items[0]);
      InsertIsMapUpdate(entries, e, key);
      InsertIsMapUpdate(entries, e, e.key);
      InsertedOk(entries, e, scope);
      LayerMeans(Insert(entries, e), items[1..], source, scope, seen + {e.key}, key);
    }
  }

  lemma InsertedOk(entries: seq<Entry>, e: Entry, scope: Text)
    requires EntriesOk(scope, entries) && EntryOk(e) && InScope(e, scope)
    ensures EntriesOk(scope, Insert(entries, e))
  {
    hide Insert, Lookup, Less, EntryOk, InScope, Sorted;
    InsertIsMapUpdate(entries, e, e.key);
  }

  /**
   Temporary intent wins over the domain for the keys it names, and only for
   those; every entry records which source it came from.
   */
  lemma ResolutionMeans(scope: Text, revision: nat, reason: Text, domain: seq<Entry>, intent: seq<Entry>,
                        findings: seq<Cited>, key: Text)
    requires ItemsOk(domain) && ItemsOk(intent)
    requires ResolveSpec(scope, revision, reason, domain, intent, findings).Success?
    ensures var c := ResolveSpec(scope, revision, reason, domain, intent, findings).value;
            Lookup(c.entries, key)
            == if Named(intent, key, TemporaryIntent).Some? then Named(intent, key, TemporaryIntent)
               else Named(domain, key, Domain)
  {
    hide Layer, Lookup, Named, EntriesOk, CanonicalBytes, ItemsOk;
    NothingIsOk(scope, key);
    LayerMeans([], domain, Domain, scope, {}, key);
    var base := Layer([], domain, Domain, scope, {}).value;
    LayerMeans(base, intent, TemporaryIntent, scope, {}, key);
  }

  lemma NothingIsOk(scope: Text, key: Text)
    ensures EntriesOk(scope, []) && Lookup([], key).None?
  {
  }

  /** Every resolved configuration is within the decoder's limits. */
  lemma ResolvedIsOk(scope: Text, revision: nat, reason: Text, domain: seq<Entry>, intent: seq<Entry>,
                     findings: seq<Cited>)
    requires IsToken(scope) && revision <= U32_MAX && ItemsOk(domain) && ItemsOk(intent)
    requires forall k :: 0 <= k < |findings| ==> FactOk(FactOf(findings[k]))
    requires ResolveSpec(scope, revision, reason, domain, intent, findings).Success?
    ensures ConfigOk(ResolveSpec(scope, revision, reason, domain, intent, findings).value)
  {
    hide Layer, Lookup, EntriesOk, CanonicalBytes, ItemsOk, FactOk, IsToken;
    NothingIsOk(scope, []);
    LayerMeans([], domain, Domain, scope, {}, []);
    var base := Layer([], domain, Domain, scope, {}).value;
    LayerMeans(base, intent, TemporaryIntent, scope, {}, []);
  }

  /**
   Lifted through both nestings: a resolved configuration decodes back to itself
   if and only if no unit or mode label in it holds a unit separator or is the
   mode `-`.
   */
  lemma ResolvedReadsBackExactly(scope: Text, revision: nat, reason: Text, domain: seq<Entry>, intent: seq<Entry>,
                                 findings: seq<Cited>)
    requires IsToken(scope) && revision <= U32_MAX && ItemsOk(domain) && ItemsOk(intent)
    requires forall k :: 0 <= k < |findings| ==> FactOk(FactOf(findings[k]))
    requires ResolveSpec(scope, revision, reason, domain, intent, findings).Success?
    ensures var c := ResolveSpec(scope, revision, reason, domain, intent, findings).value;
            DecodeConfig(CanonicalBytes(c)) == Success(c)
            <==> forall i :: 0 <= i < |c.entries| ==> CleanLabels(c.entries[i].binding)
  {
    hide ResolveSpec, ConfigOk, DecodeConfig, CanonicalBytes, CleanLabels, ItemsOk, FactOk, IsToken;
    ResolvedIsOk(scope, revision, reason, domain, intent, findings);
    ConfigReadsBackExactly(ResolveSpec(scope, revision, reason, domain, intent, findings).value);
  }
}
