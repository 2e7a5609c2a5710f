/**
 Labels that a configuration does not keep: a unit with a separator of its own,
 and the mode called `-`.
 */
module ConfigLimits {
  import opened Wrappers
  import opened Framing
  import opened TextOrder
  import opened Tokens
  import opened Bindings
  import opened Registry
  import opened EffectiveConfig
  import opened ConfigRoundTrip
  import Descriptor

  function Wired(unit: Text, mode: Option<Text>): Binding
  {
    Binding("endpoint-1", Service, "scope-a", "ahu-1", "temp", "scope-a", "source-1", unit, mode, Sense, Sense, Absent,
            Valid)
  }

  const SPLIT_UNIT: Text := ['a', UNIT, 'b']

  /** A valid unit with a separator inside makes the canonical text unreadable. */
  lemma SplitUnitIsLost()
    ensures BindingOk(Wired(SPLIT_UNIT, None))
    ensures DecodeCanonical(Canonical(Wired(SPLIT_UNIT, None))).Failure?
  {
    hide Descriptor.IsUtf8, Units, Canonical;
    Descriptor.AsciiIsUtf8(SPLIT_UNIT);
    assert SPLIT_UNIT[1] == UNIT;
    CanonicalPieces(Wired(SPLIT_UNIT, None));
  }

  /** The mode called `-` shares its canonical text with no mode at all, and reads back as none. */
  lemma DashModeIsLost()
    ensures BindingOk(Wired("degC", Some("-")))
    ensures Canonical(Wired("degC", Some("-"))) == Canonical(Wired("degC", None))
    ensures DecodeCanonical(Canonical(Wired("degC", Some("-")))) == Success(Wired("degC", None))
  {
    hide Descriptor.IsUtf8, Suffixed, DecodeCanonical;
    Descriptor.AsciiIsUtf8("degC");
    Descriptor.AsciiIsUtf8("-");
    CanonicalReadsBackExactly(Wired("degC", None));
  }

  // ------------------------------------------------------------------ lifted

  function Item(b: Binding): Entry { Entry("supply", "Supply air", b, Domain) }

  lemma ItemIsOk(b: Binding)
    requires BindingOk(b)
    ensures EntryOk(Item(b))
  {
    hide BindingOk;
  }

  lemma OneFieldLength(field: Text)
    requires |field| < 10000
    ensures |Encode([field])| <= |field| + 5 && Encode([]) == []
  {
    EncodedLength([field]);
    assert [field][1..] == [];
  }

  lemma LayersOfOne(b: Binding)
    requires InScope(Item(b), "scope-a")
    ensures Layers([Item(b)], [], "scope-a") == Success([Item(b)])
  {
    var e, none := Item(b), {};
    assert e.(source := Domain) == e && [e][1..] == [] && Insert([], e) == [e];
    assert Layer([e], [], Domain, "scope-a", none + {e.key}) == Success([e]);
    assert Layer([], [e], Domain, "scope-a", none) == Success([e]);
    assert Layer([e], [], TemporaryIntent, "scope-a", none) == Success([e]);
  }

  /** One domain entry and nothing else resolves to the configuration that holds it. */
  lemma OneItemResolves(b: Binding)
    requires BindingOk(b) && InScope(Item(b), "scope-a")
    ensures ResolveSpec("scope-a", 1, "commissioning", [Item(b)], [], [])
         == Success(Config("scope-a", 1, "commissioning", [Item(b)], []))
  {
    hide BindingOk, EntryOk, Encode, Canonical;
    var config := Config("scope-a", 1, "commissioning", [Item(b)], []);
    LayersOfOne(b);
    assert FactsOf([]) == [];
    ItemIsOk(b);
    EntryIsShort(Item(b));
    assert EncodeEntries(config.entries) == [EncodeEntry(Item(b))];
    assert EncodeFacts(config.facts) == [];
    OneFieldLength(EncodeEntry(Item(b)));
    var f := ConfigFields(config);
    EncodedLength(f);
    assert f[1..][1..] == f[2..] && f[2..][1..] == f[3..] && f[3..][1..] == f[4..] && f[4..][1..] == f[5..];
    assert Decimal(1) == "1";
    TotalOfSix(f);
  }

  lemma TotalOfSix(f: seq<Text>)
    requires |f| == 6
    ensures Total(f) == |f[0]| + |f[1]| + |f[2]| + |f[3]| + |f[4]| + |f[5]|
  {
    assert f == [f[0], f[1]] + [f[2], f[3], f[4], f[5]];
    assert f[1..][1..] == [f[2], f[3], f[4], f[5]];
    TotalOfFour(f[2], f[3], f[4], f[5]);
  }

  lemma LostLabelIsResolved(b: Binding)
    requires BindingOk(b) && InScope(Item(b), "scope-a") && !CleanLabels(b)
    ensures var resolved := ResolveSpec("scope-a", 1, "commissioning", [Item(b)], [], []);
            resolved.Success? && DecodeConfig(CanonicalBytes(resolved.value)) != Success(resolved.value)
  {
    hide BindingOk, EntryOk, ResolveSpec, DecodeConfig, CanonicalBytes, CleanLabels;
    ItemIsOk(b);
    OneItemResolves(b);
    ResolvedReadsBackExactly("scope-a", 1, "commissioning", [Item(b)], [], []);
    assert [Item(b)][0].binding == b;
  }

  /** Both labels pass resolution, and the configurations they make do not decode to themselves. */
  lemma LostLabelsAreResolved(b: Binding)
    requires b == Wired(SPLIT_UNIT, None) || b == Wired("degC", Some("-"))
    ensures var resolved := ResolveSpec("scope-a", 1, "commissioning", [Item(b)], [], []);
            resolved.Success? && DecodeConfig(CanonicalBytes(resolved.value)) != Success(resolved.value)
  {
    hide BindingOk, ResolveSpec, DecodeConfig, CanonicalBytes, DecodeCanonical, Canonical, CleanLabels;
    SplitUnitIsLost();
    DashModeIsLost();
    CanonicalReadsBackExactly(b);
    LostLabelIsResolved(b);
  }
}
