/**
 Effective configurations: how domain entries, temporary intent and observed
 facts resolve into one, and how its canonical bytes decode.
 */
module EffectiveConfig {
  import opened Wrappers
  import opened Framing
  import opened TextOrder
  import opened Tokens
  import opened DescriptorFields
  import opened Actors
  import opened Bindings
  import opened Registry
  import Descriptor

  const MAX_CONFIG: nat := 16384
  const MAX_ENTRY: nat := 4096
  const MAX_ENTRIES: nat := 32
  const MAX_FACTS: nat := 256

  datatype SourceKind = Domain | TemporaryIntent

  datatype Entry = Entry(key: Text, name: Text, binding: Binding, source: SourceKind)

  datatype Fact = Fact(id: Text, generation: nat, actor: Text, digest: Text)

  /** Entries are an ordered map: a list with strictly increasing keys. */
  datatype Config = Config(scope: Text, revision: nat, reason: Text, entries: seq<Entry>, facts: seq<Fact>)

  datatype ConfigError = Invalid | Limit | BadRecord(fault: FrameFault)

  // ------------------------------------------------------------- ordered keys

  predicate Sorted(entries: seq<Entry>)
  {
    forall i, j :: 0 <= i < j < |entries| ==> Less(entries[i].key, entries[j].key)
  }

  function Lookup(entries: seq<Entry>, key: Text): Option<Entry>
  {
    if entries == [] then None
    else if entries[0].key == key then Some(entries[0])
    else Lookup(entries[1..], key)
  }

  /** Insertion into the ordered map; an equal key is replaced. */
  function Insert(entries: seq<Entry>, e: Entry): seq<Entry>
  {
    if entries == [] then [e]
    else if e.key == entries[0].key then [e] + entries[1..]
    else if Less(e.key, entries[0].key) then [e] + entries
    else [entries[0]] + Insert(entries[1..], e)
  }

  /** Keys of an ordered map stay ordered, and insertion changes exactly one lookup. */
  lemma {:induction false} InsertIsMapUpdate(entries: seq<Entry>, e: Entry, key: Text)
    requires Sorted(entries)
    ensures Sorted(Insert(entries, e))
    ensures Lookup(Insert(entries, e), key) == if key == e.key then Some(e) else Lookup(entries, key)
    ensures |Insert(entries, e)| == |entries| + if Lookup(entries, e.key).Some? then 0 else 1
    ensures forall i :: 0 <= i < |Insert(entries, e)| ==> Insert(entries, e)[i] == e || Insert(entries, e)[i] in entries
  {
    if entries != [] {
      var head, tail := entries[0], entries[1..];
      LessTrichotomy(e.key, head.key);
      if e.key == head.key {
        InsertReplaces(entries, e);
      } else if Less(e.key, head.key) {
        InsertBefore(entries, e);
      } else {
        InsertIsMapUpdate(tail, e, key);
        InsertAfter(entries, e);
      }
    }
  }

  lemma InsertReplaces(entries: seq<Entry>, e: Entry)
    requires Sorted(entries) && entries != [] && e.key == entries[0].key
    ensures Sorted([e] + entries[1..])
  {
  }

  lemma InsertBefore(entries: seq<Entry>, e: Entry)
    requires Sorted(entries) && entries != [] && Less(e.key, entries[0].key)
    ensures Sorted([e] + entries) && Lookup(entries, e.key).None?
  {
    forall j | 0 <= j < |entries|
      ensures Less(e.key, entries[j].key)
    {
      if j > 0 {
        LessTransitive(e.key, entries[0].key, entries[j].key);
      }
    }
    AbsentBelow(entries, e.key);
  }

  lemma {:induction false} AbsentBelow(entries: seq<Entry>, key: Text)
    requires forall j :: 0 <= j < |entries| ==> Less(key, entries[j].key)
    ensures Lookup(entries, key).None?
  {
    if entries != [] {
      LessTrichotomy(key, entries[0].key);
      AbsentBelow(entries[1..], key);
    }
  }

  lemma InsertAfter(entries: seq<Entry>, e: Entry)
    requires Sorted(entries) && entries != [] && Less(entries[0].key, e.key)
    requires Sorted(Insert(entries[1..], e))
    requires forall i :: 0 <= i < |Insert(entries[1..], e)| ==>
               Insert(entries[1..], e)[i] == e || Insert(entries[1..], e)[i] in entries[1..]
    ensures Sorted([entries[0]] + Insert(entries[1..], e))
  {
    hide Insert, Less;
    var all, tail := [entries[0]] + Insert(entries[1..], e), Insert(entries[1..], e);
    forall j | 0 <= j < |tail|
      ensures Less(entries[0].key, tail[j].key)
    {
      if tail[j] != e {
        var k :| 0 <= k < |entries[1..]| && entries[1..][k] == tail[j];
        assert entries[k + 1] == tail[j];
      }
    }
  }

  // ------------------------------------------------------------------- resolve

  /** One source's items, tagged, inserted one by one. */
  function Layer(entries: seq<Entry>, items: seq<Entry>, source: SourceKind, scope: Text, seen: set<Text>)
    : Result<seq<Entry>, ConfigError>
    decreases |items|
  {
    if items == [] then Success(entries)
    else
      var e := items[0];
      if e.key in seen then Failure(Invalid)
      else if source.TemporaryIntent? && Lookup(entries, e.key).None? then Failure(Invalid)
      else if e.binding.pscope != scope || e.binding.escope != scope then Failure(Invalid)
      else Layer(Insert(entries, e.(source := source)), items[1..], source, scope, seen + {e.key})
  }

  function Layers(domain: seq<Entry>, intent: seq<Entry>, scope: Text): Result<seq<Entry>, ConfigError>
  {
    if |domain| > MAX_ENTRIES then Failure(Limit)
    else
      var base :- Layer([], domain, Domain, scope, {});
      if |intent| > MAX_ENTRIES then Failure(Limit)
      else Layer(base, intent, TemporaryIntent, scope, {})
  }

  function FactOf(c: Cited): Fact { Fact(c.fid, c.generation, c.reference, c.digest) }

  function FactsOf(findings: seq<Cited>): seq<Fact>
  {
    seq(|findings|, i requires 0 <= i < |findings| => FactOf(findings[i]))
  }

  function ResolveSpec(scope: Text, revision: nat, reason: Text, domain: seq<Entry>, intent: seq<Entry>,
                       findings: seq<Cited>): Result<Config, ConfigError>
  {
    hide Layer, Layers, CanonicalBytes;
    var entries :- Layers(domain, intent, scope);
    if entries == [] then Failure(Invalid)
    else
      var config := Config(scope, revision, reason, entries, FactsOf(findings));
      if |CanonicalBytes(config)| > MAX_CONFIG then Failure(Limit) else Success(config)
  }

  method ApplyLayer(entries: seq<Entry>, items: seq<Entry>, source: SourceKind, scope: Text)
    returns (r: Result<seq<Entry>, ConfigError>)
    ensures r == Layer(entries, items, source, scope, {})
  {
    var result, seen, i := entries, {}, 0;
    assert items[0..] == items;
    while i < |items|
      invariant i <= |items|
      invariant Layer(result, items[i..], source, scope, seen) == Layer(entries, items, source, scope, {})
    {
      assert items[i..][1..] == items[i + 1..];
      var e := items[i];
      if e.key in seen {
        return Failure(Invalid);
      }
      if source.TemporaryIntent? && Lookup(result, e.key).None? {
        return Failure(Invalid);
      }
      if e.binding.pscope != scope || e.binding.escope != scope {
        return Failure(Invalid);
      }
      result := Insert(result, e.(source := source));
      seen := seen + {e.key};
      i := i + 1;
    }
    return Success(result);
  }

  /** Domain entries first, then temporary intent over keys that are already there. */
  method Resolve(scope: Text, revision: nat, reason: Text, domain: seq<Entry>, intent: seq<Entry>,
                 findings: seq<Cited>) returns (r: Result<Config, ConfigError>)
    ensures r == ResolveSpec(scope, revision, reason, domain, intent, findings)
  {
    hide Layer, CanonicalBytes;
    if |domain| > MAX_ENTRIES {
      return Failure(Limit);
    }
    var base := ApplyLayer([], domain, Domain, scope);
    if base.Failure? {
      return Failure(base.error);
    }
    if |intent| > MAX_ENTRIES {
      return Failure(Limit);
    }
    var entries := ApplyLayer(base.value, intent, TemporaryIntent, scope);
    if entries.Failure? {
      return Failure(entries.error);
    }
    if entries.value == [] {
      return Failure(Invalid);
    }
    var config := Config(scope, revision, reason, entries.value, FactsOf(findings));
    return if |CanonicalBytes(config)| > MAX_CONFIG then Failure(Limit) else Success(config);
  }

  // ---------------------------------------------------------------- encoding

  function SourceText(s: SourceKind): Text { if s.Domain? then "domain" else "temporary-intent" }

  function EncodeEntry(e: Entry): Text { Encode([e.key, e.name, SourceText(e.source), Canonical(e.binding)]) }

  function EncodeFact(f: Fact): Text { Encode([f.id, Decimal(f.generation), f.actor, f.digest]) }

  function EncodeEntries(entries: seq<Entry>): seq<Text>
  {
    seq(|entries|, i requires 0 <= i < |entries| => EncodeEntry(entries[i]))
  }

  function EncodeFacts(facts: seq<Fact>): seq<Text>
  {
    seq(|facts|, i requires 0 <= i < |facts| => EncodeFact(facts[i]))
  }

  function ConfigFields(c: Config): seq<Text>
  {
    ["verdant-effective-v1", c.scope, Decimal(c.revision), c.reason, Encode(EncodeEntries(c.entries)),
     Encode(EncodeFacts(c.facts))]
  }

  function CanonicalBytes(c: Config): Text { Encode(ConfigFields(c)) }

  // ---------------------------------------------------------------- decoding

  function Framed(raw: Text, maxBytes: nat, maxFields: nat): Result<seq<Text>, ConfigError>
  {
    match DecodeSpec(raw, maxBytes, maxFields)
    case Success(fields) => Success(fields)
    case Failure(fault) => Failure(BadRecord(fault))
  }

  /** Split at every unit separator. */
  function Units(raw: Text): seq<Text>
    decreases |raw|
  {
    var end := Framing.Find(raw, 0x1F as char);
    if end == |raw| then [raw] else [raw[..end]] + Units(raw[end + 1..])
  }

  function Zip(keys: seq<Text>, values: seq<Text>): Descriptor.Fields
    requires |keys| == |values|
  {
    if keys == [] then map[]
    else Zip(keys[..|keys| - 1], values[..|keys| - 1])[keys[|keys| - 1] := values[|keys| - 1]]
  }

  /** A display name: nonempty, at most 256 bytes, no control character. */
  predicate IsDisplayName(t: Text)
  {
    && 0 < |t| <= 256
    && forall i :: 0 <= i < |t| ==>
         && t[i] as int >= 0x20 && t[i] as int != 0x7F
         && !(t[i] as int == 0xC2 && i + 1 < |t| && t[i + 1] as int < 0xA0)
  }

  function ParseSource(t: Text): Option<SourceKind>
  {
    if t == "domain" then Some(Domain) else if t == "temporary-intent" then Some(TemporaryIntent) else None
  }

  function DecodeCanonical(raw: Text): Result<Binding, ConfigError>
  {
    var canonical := Units(raw);
    if |canonical| != 14 || canonical[0] != "binding-canonical-v2" then Failure(Invalid)
    else
      match DecodeBinding(Zip(PART_KEYS, canonical[1..]))
      case Success(binding) => Success(binding)
      case Failure(_) => Failure(Invalid)
  }

  function DecodeEntry(raw: Text): Result<Entry, ConfigError>
  {
    hide DecodeCanonical, DecodeSpec, EncodeEntry, ParseSource;
    var f :- Framed(raw, MAX_ENTRY, 4);
    if |f| != 4 then Failure(Invalid)
    else
      var binding :- DecodeCanonical(f[3]);
      if !IsToken(f[0]) || !IsDisplayName(f[1]) || ParseSource(f[2]).None? then Failure(Invalid)
      else
        var e := Entry(f[0], f[1], binding, ParseSource(f[2]).value);
        if EncodeEntry(e) != raw then Failure(Invalid) else Success(e)
  }

  function DecodeEntries(raws: seq<Text>, scope: Text, entries: seq<Entry>): Result<seq<Entry>, ConfigError>
    decreases |raws|
  {
    hide DecodeEntry;
    if raws == [] then Success(entries)
    else
      var e :- DecodeEntry(raws[0]);
      if e.binding.pscope != scope || e.binding.escope != scope || Lookup(entries, e.key).Some? then Failure(Invalid)
      else DecodeEntries(raws[1..], scope, Insert(entries, e))
  }

  function DecodeFact(raw: Text): Result<Fact, ConfigError>
  {
    hide DecodeSpec, Number;
    var p :- Framed(raw, MAX_ENTRY, 4);
    if |p| != 4 || !IsToken(p[0]) then Failure(Invalid)
    else
      match Number(p[1], U32_MAX)
      case Failure(fault) => Failure(BadRecord(fault))
      case Success(generation) => Success(Fact(p[0], generation, p[2], p[3]))
  }

  function DecodeFacts(raws: seq<Text>): Result<seq<Fact>, ConfigError>
  {
    hide DecodeFact;
    if raws == [] then Success([])
    else
      var f :- DecodeFact(raws[0]);
      var more :- DecodeFacts(raws[1..]);
      Success([f] + more)
  }

  function DecodeConfig(raw: Text): Result<Config, ConfigError>
  {
    hide DecodeSpec, Number, DecodeEntries, DecodeFacts, CanonicalBytes;
    var f :- Framed(raw, MAX_CONFIG, 6);
    if |f| != 6 || f[0] != "verdant-effective-v1" || !IsToken(f[1]) then Failure(Invalid)
    else
      match Number(f[2], U32_MAX)
      case Failure(fault) => Failure(BadRecord(fault))
      case Success(revision) =>
        var rawEntries :- Framed(f[4], MAX_CONFIG, MAX_ENTRIES);
        var entries :- DecodeEntries(rawEntries, f[1], []);
        if entries == [] then Failure(Invalid)
        else
          var rawFacts :- Framed(f[5], MAX_CONFIG, MAX_FACTS);
          var facts :- DecodeFacts(rawFacts);
          var config := Config(f[1], revision, f[3], entries, facts);
          if CanonicalBytes(config) != raw then Failure(Invalid) else Success(config)
  }

  /** The loop over framed entries. */
  method ReadEntries(raws: seq<Text>, scope: Text) returns (r: Result<seq<Entry>, ConfigError>)
    ensures r == DecodeEntries(raws, scope, [])
  {
    hide DecodeEntry, Lookup, Insert;
    var entries, i := [], 0;
    assert raws[0..] == raws;
    while i < |raws|
      invariant i <= |raws|
      invariant DecodeEntries(raws[i..], scope, entries) == DecodeEntries(raws, scope, [])
    {
      assert raws[i..][1..] == raws[i + 1..];
      var e := DecodeEntry(raws[i]);
      if e.Failure? {
        return Failure(e.error);
      }
      if e.value.binding.pscope != scope || e.value.binding.escope != scope || Lookup(entries, e.value.key).Some? {
        return Failure(Invalid);
      }
      entries := Insert(entries, e.value);
      i := i + 1;
    }
    return Success(entries);
  }

  /** The loop over framed facts. */
  method ReadFacts(raws: seq<Text>) returns (r: Result<seq<Fact>, ConfigError>)
    ensures r == DecodeFacts(raws)
  {
    hide DecodeFact;
    var facts: seq<Fact>, i := [], 0;
    assert raws[0..] == raws;
    ghost var all := DecodeFacts(raws);
    assert all.Success? ==> facts + all.value == all.value;
    while i < |raws|
      invariant i <= |raws|
      invariant DecodeFacts(raws)
             == match DecodeFacts(raws[i..])
                case Success(more) => Success(facts + more)
                case Failure(error) => Failure(error)
    {
      assert raws[i..][1..] == raws[i + 1..];
      var f := DecodeFact(raws[i]);
      if f.Failure? {
        return Failure(f.error);
      }
      ghost var more := DecodeFacts(raws[i + 1..]);
      assert more.Success? ==> facts + ([f.value] + more.value) == facts + [f.value] + more.value;
      facts := facts + [f.value];
      i := i + 1;
    }
    assert facts + [] == facts;
    return Success(facts);
  }
}
