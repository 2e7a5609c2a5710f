/** The access admission rows: what each descriptor says, and how it reads back. */
module AccessRecords {
  import opened Wrappers
  import opened Framing
  import opened Tokens
  import opened Descriptor
  import opened DescriptorFields

  const MAX_CEILING: nat := 3
  const MAX_SCOPES: nat := 16
  const U8_MAX: nat := 255
  const U32_MAX: nat := 0xFFFF_FFFF
  const I64_MIN: int := -0x8000_0000_0000_0000
  const I64_MAX: int := 0x7FFF_FFFF_FFFF_FFFF
  const SCHEMA_GENERATION: nat := 1

  /** Administrative scopes and ceiling (none for an entry-only capability), and expiry. */
  datatype Policy = Policy(scopes: seq<Text>, admin: Option<nat>, expires: Option<int>)

  datatype IssueRow = IssueRow(
    cap: Text, scope: Text, ceiling: nat, role: Text, key: Text, keyPrint: Text, issuer: Text,
    capgen: nat, user: Text, reason: Text, displayLabel: Text, policy: Policy)

  datatype RevokeRow = RevokeRow(cap: Text, key: Text, capgen: nat, issuer: Text, reason: Text)

  datatype BootstrapRow = BootstrapRow(user: Text, issuer: Text, reason: Text, generation: nat)

  datatype Row =
    | Bootstrap(bootstrap: BootstrapRow)
    | Issue(issue: IssueRow)
    | Revoke(revoke: RevokeRow)

  // ---------------------------------------------------------------- validity

  /** What `CapabilityPolicy` can hold: nothing to administer, or 1..=16 distinct scopes. */
  predicate PolicyOk(p: Policy)
  {
    && (p.admin.None? ==> p.scopes == [])
    && (p.admin.Some? ==> 0 < |p.scopes| <= MAX_SCOPES && p.admin.value <= MAX_CEILING && Distinct(p.scopes))
    && (forall i :: 0 <= i < |p.scopes| ==> IsToken(p.scopes[i]))
    && (p.expires.Some? ==> I64_MIN <= p.expires.value <= I64_MAX)
  }

  predicate IssueOk(r: IssueRow)
  {
    && IsToken(r.cap) && IsToken(r.scope) && IsToken(r.key) && IsToken(r.issuer) && IsToken(r.user)
    && r.role in {"reviewer", "publisher"} && r.ceiling <= MAX_CEILING
    && 0 < |r.keyPrint| <= 64 && IsUtf8(r.keyPrint) && 0 < r.capgen <= U32_MAX
    && r.reason != [] && IsUtf8(r.reason) && r.displayLabel != [] && IsUtf8(r.displayLabel)
    && PolicyOk(r.policy) && (r.policy.admin.Some? ==> r.policy.admin.value <= r.ceiling)
  }

  predicate RevokeOk(r: RevokeRow)
  {
    && IsToken(r.cap) && IsToken(r.key) && 0 < r.capgen <= U32_MAX && IsToken(r.issuer)
    && r.reason != [] && IsUtf8(r.reason)
  }

  predicate BootstrapOk(r: BootstrapRow)
  {
    IsToken(r.user) && IsToken(r.issuer) && r.reason != [] && IsUtf8(r.reason) && r.generation == SCHEMA_GENERATION
  }

  predicate RowOk(row: Row)
  {
    match row
    case Bootstrap(b) => BootstrapOk(b)
    case Issue(i) => IssueOk(i)
    case Revoke(r) => RevokeOk(r)
  }

  // ------------------------------------------------------------------- texts

  /** `to_string` of a signed integer. */
  function SignedDecimal(n: int): Text { if n < 0 then "-" + Decimal(-n) else Decimal(n) }

  function Signed(magnitude: Option<nat>, sign: int): Option<int>
  {
    if magnitude.None? then None else Some(sign * magnitude.value)
  }

  /** Rust's signed `parse` for 64 bits; a lone minus sign is no number. */
  function ParseSigned(raw: Text): Option<int>
  {
    if raw != [] && raw[0] == '-' && (|raw| == 1 || IsDigit(raw[1]))
    then Signed(ParseUnsigned(raw[1..], -I64_MIN), -1)
    else Signed(ParseUnsigned(raw, I64_MAX), 1)
  }

  function Join(texts: seq<Text>): Text
  {
    if texts == [] then [] else if |texts| == 1 then texts[0] else texts[0] + "," + Join(texts[1..])
  }

  function SplitCommas(raw: Text): seq<Text>
    decreases |raw|
  {
    var end := Find(raw, ',');
    if end == |raw| then [raw] else [raw[..end]] + SplitCommas(raw[end + 1..])
  }

  function AdminText(p: Policy): Text { if p.admin.Some? then Decimal(p.admin.value) else "none" }

  function ExpiresText(p: Policy): Text { if p.expires.Some? then SignedDecimal(p.expires.value) else "none" }

  // ------------------------------------------------------------- descriptors

  const BOOTSTRAP_KEYS: seq<Text> := ["v", "kind", "user", "issuer", "reason", "generation"]
  const ISSUE_KEYS: seq<Text> :=
    ["v", "kind", "cap", "scope", "ceiling", "role", "key", "keyfp", "issuer", "capgen", "user", "reason",
     "label", "admin", "scopes", "expires"]
  const REVOKE_KEYS: seq<Text> := ["v", "kind", "cap", "key", "capgen", "issuer", "reason"]

  function BootstrapValues(r: BootstrapRow): seq<Text>
  {
    ["2", "bootstrap", r.user, r.issuer, r.reason, Decimal(r.generation)]
  }

  function IssueValues(r: IssueRow): seq<Text>
  {
    ["2", "issue", r.cap, r.scope, Decimal(r.ceiling), r.role, r.key, r.keyPrint, r.issuer, Decimal(r.capgen),
     r.user, r.reason, r.displayLabel, AdminText(r.policy), Join(r.policy.scopes), ExpiresText(r.policy)]
  }

  function RevokeValues(r: RevokeRow): seq<Text>
  {
    ["2", "revoke", r.cap, r.key, Decimal(r.capgen), r.issuer, r.reason]
  }

  function Keys(row: Row): seq<Text>
  {
    match row
    case Bootstrap(_) => BOOTSTRAP_KEYS
    case Issue(_) => ISSUE_KEYS
    case Revoke(_) => REVOKE_KEYS
  }

  function Values(row: Row): seq<Text>
  {
    match row
    case Bootstrap(b) => BootstrapValues(b)
    case Issue(i) => IssueValues(i)
    case Revoke(r) => RevokeValues(r)
  }

  function EncodeRow(row: Row): Text
    requires RowOk(row)
  {
    ValuesAreUtf8(row);
    Render(EscapedFields(Keys(row), Values(row)))
  }

  // ----------------------------------------------------------------- decoding

  function DecodeExpires(m: Fields): Result<Option<int>, Descriptor.Fault>
  {
    var expires :- Need(m, "expires");
    if expires == "none" then Success(None)
    else
      match ParseSigned(expires)
      case Some(n) => Success(Some(n))
      case None => Failure(BadField)
  }

  function DecodePolicy(m: Fields, ceiling: nat): Result<Policy, Descriptor.Fault>
  {
    var expires :- DecodeExpires(m);
    var admin :- Need(m, "admin");
    var scopes :- Need(m, "scopes");
    if admin == "none" then
      if scopes != [] then Failure(BadField) else Success(Policy([], None, expires))
    else
      match ParseUnsigned(admin, U8_MAX)
      case None => Failure(BadField)
      case Some(level) =>
        var names := SplitCommas(scopes);
        if level > ceiling || !(forall i :: 0 <= i < |names| ==> IsToken(names[i]))
           || names == [] || |names| > MAX_SCOPES || level > MAX_CEILING || !Distinct(names)
        then Failure(BadField)
        else Success(Policy(names, Some(level), expires))
  }

  function DecodeIssue(m: Fields): Result<IssueRow, Descriptor.Fault>
  {
    var cap :- Need(m, "cap");
    var scope :- Need(m, "scope");
    var ceiling :- NeedNumber(m, "ceiling", U8_MAX);
    var _ :- Check(ceiling <= MAX_CEILING && IsToken(scope));
    var role :- Need(m, "role");
    var _ :- Check(role in {"reviewer", "publisher"});
    var key :- Need(m, "key");
    var _ :- Check(IsToken(key) && IsToken(cap));
    var keyPrint :- Need(m, "keyfp");
    var _ :- Check(0 < |keyPrint| <= 64);
    var issuer :- Need(m, "issuer");
    var _ :- Check(IsToken(issuer));
    var capgen :- NeedNumber(m, "capgen", U32_MAX);
    var _ :- Check(capgen > 0);
    var user :- Need(m, "user");
    var _ :- Check(IsToken(user));
    var reason :- Need(m, "reason");
    var _ :- Check(reason != []);
    var displayLabel :- Need(m, "label");
    var _ :- Check(displayLabel != []);
    var policy :- DecodePolicy(m, ceiling);
    Success(IssueRow(cap, scope, ceiling, role, key, keyPrint, issuer, capgen, user, reason, displayLabel, policy))
  }

  function DecodeRevoke(m: Fields): Result<RevokeRow, Descriptor.Fault>
  {
    var cap :- Need(m, "cap");
    var _ :- Check(IsToken(cap));
    var key :- Need(m, "key");
    var _ :- Check(IsToken(key));
    var capgen :- NeedNumber(m, "capgen", U32_MAX);
    var _ :- Check(capgen > 0);
    var issuer :- Need(m, "issuer");
    var _ :- Check(IsToken(issuer));
    var reason :- Need(m, "reason");
    var _ :- Check(reason != []);
    Success(RevokeRow(cap, key, capgen, issuer, reason))
  }

  function DecodeBootstrap(m: Fields): Result<BootstrapRow, Descriptor.Fault>
  {
    var user :- Need(m, "user");
    var _ :- Check(IsToken(user));
    var issuer :- Need(m, "issuer");
    var _ :- Check(IsToken(issuer));
    var reason :- Need(m, "reason");
    var _ :- Check(reason != []);
    var generation :- NeedNumber(m, "generation", U32_MAX);
    var _ :- Check(generation == SCHEMA_GENERATION);
    Success(BootstrapRow(user, issuer, reason, generation))
  }

  /** Split a descriptor, check its version and key set, and decode by its kind. */
  function DecodeRow(raw: Text): Result<Row, Descriptor.Fault>
  {
    var m :- SplitDescriptor(raw);
    DecodeFields(m)
  }

  function DecodeFields(m: Fields): Result<Row, Descriptor.Fault>
  {
    var version :- Need(m, "v");
    var _ :- Check(version == "2");
    var kind :- Need(m, "kind");
    if kind == "bootstrap" then
      var _ :- Check(KnownKeys(m, BOOTSTRAP_KEYS));
      var row :- DecodeBootstrap(m);
      Success(Bootstrap(row))
    else if kind == "issue" then
      var _ :- Check(KnownKeys(m, ISSUE_KEYS));
      var row :- DecodeIssue(m);
      Success(Issue(row))
    else if kind == "revoke" then
      var _ :- Check(KnownKeys(m, REVOKE_KEYS));
      var row :- DecodeRevoke(m);
      Success(Revoke(row))
    else Failure(BadField)
  }

  // -------------------------------------------------------------- round trip

  lemma {:induction false} JoinIsAscii(texts: seq<Text>)
    requires forall i :: 0 <= i < |texts| ==> IsToken(texts[i])
    ensures forall i :: 0 <= i < |Join(texts)| ==> Join(texts)[i] as int < 0x80
  {
    if |texts| > 1 {
      JoinIsAscii(texts[1..]);
    }
  }

  lemma {:induction false} SplitOfJoin(texts: seq<Text>)
    requires texts != [] && forall i :: 0 <= i < |texts| ==> IsToken(texts[i])
    ensures SplitCommas(Join(texts)) == texts
  {
    assert forall i :: 0 <= i < |texts[0]| ==> IsTokenChar(texts[0][i]);
    if |texts| == 1 {
      FindFirst(texts[0], ',', []);
    } else {
      SplitOfJoin(texts[1..]);
      FindFirst(texts[0], ',', Join(texts[1..]));
      assert Join(texts) == texts[0] + [','] + Join(texts[1..]);
      assert [texts[0]] + texts[1..] == texts;
    }
  }

  lemma SignedParses(n: int)
    requires I64_MIN <= n <= I64_MAX
    ensures ParseSigned(SignedDecimal(n)) == Some(n) && SignedDecimal(n) != "none"
    ensures forall i :: 0 <= i < |SignedDecimal(n)| ==> IsPlain(SignedDecimal(n)[i])
  {
    hide Decimal, ParseUnsigned;
    if n < 0 {
      DecimalParses(-n, -I64_MIN);
      assert SignedDecimal(n)[1..] == Decimal(-n);
    } else {
      DecimalParses(n, I64_MAX);
    }
  }

  lemma AdminParses(p: Policy)
    requires PolicyOk(p)
    ensures p.admin.Some? ==> AdminText(p) != "none" && ParseUnsigned(AdminText(p), U8_MAX) == p.admin
    ensures forall i :: 0 <= i < |AdminText(p)| ==> IsPlain(AdminText(p)[i])
  {
    hide Decimal, ParseUnsigned;
    if p.admin.Some? {
      DecimalParses(p.admin.value, U8_MAX);
    }
  }

  lemma PolicyIsUtf8(p: Policy)
    requires PolicyOk(p)
    ensures IsUtf8(AdminText(p)) && IsUtf8(Join(p.scopes)) && IsUtf8(ExpiresText(p))
  {
    hide IsUtf8, SignedDecimal, Decimal, IsToken;
    AdminParses(p);
    AsciiIsUtf8(AdminText(p));
    JoinIsAscii(p.scopes);
    AsciiIsUtf8(Join(p.scopes));
    if p.expires.Some? {
      SignedParses(p.expires.value);
    }
    AsciiIsUtf8(ExpiresText(p));
  }

  lemma ValuesAreUtf8(row: Row)
    requires RowOk(row)
    ensures |Keys(row)| == |Values(row)| && AllUtf8(Values(row))
  {
    hide IsUtf8, Decimal, IsToken, Join, AdminText, ExpiresText, PolicyOk;
    AsciiIsUtf8("2");
    match row
    case Bootstrap(b) =>
      AsciiIsUtf8("bootstrap");
      TokenIsUtf8(b.user);
      TokenIsUtf8(b.issuer);
      DecimalIsUtf8(b.generation);
    case Revoke(r) =>
      AsciiIsUtf8("revoke");
      TokenIsUtf8(r.cap);
      TokenIsUtf8(r.key);
      TokenIsUtf8(r.issuer);
      DecimalIsUtf8(r.capgen);
    case Issue(i) => IssueIsUtf8(i);
  }

  lemma IssueIsUtf8(r: IssueRow)
    requires IssueOk(r)
    ensures AllUtf8(IssueValues(r))
  {
    hide IsUtf8, Decimal, IsToken, Join, AdminText, ExpiresText, PolicyOk;
    AsciiIsUtf8("2");
    AsciiIsUtf8("issue");
    AsciiIsUtf8(r.role);
    TokenIsUtf8(r.cap);
    TokenIsUtf8(r.scope);
    TokenIsUtf8(r.key);
    TokenIsUtf8(r.issuer);
    TokenIsUtf8(r.user);
    DecimalIsUtf8(r.ceiling);
    DecimalIsUtf8(r.capgen);
    PolicyIsUtf8(r.policy);
  }

  lemma IssueKeysDiffer()
    ensures Distinct(ISSUE_KEYS)
  {
  }

  lemma IssueKeysAreClear()
    ensures forall i :: 0 <= i < |ISSUE_KEYS| ==> KeyOk(ISSUE_KEYS[i])
  {
  }

  lemma RevokeKeysAreOk()
    ensures KeysOk(REVOKE_KEYS)
  {
  }

  lemma BootstrapKeysAreOk()
    ensures KeysOk(BOOTSTRAP_KEYS)
  {
  }

  lemma KeysAreOk(row: Row)
    ensures KeysOk(Keys(row))
  {
    hide KeyOk, Distinct;
    if row.Issue? {
      IssueKeysDiffer();
      IssueKeysAreClear();
    } else {
      RevokeKeysAreOk();
      BootstrapKeysAreOk();
    }
  }

  lemma JoinOfNothing(texts: seq<Text>)
    requires texts == []
    ensures Join(texts) == []
  {
  }

  lemma PolicyDecodes(p: Policy, ceiling: nat, m: Fields)
    requires PolicyOk(p) && (p.admin.Some? ==> p.admin.value <= ceiling)
    requires Holds(m, "admin", AdminText(p)) && Holds(m, "scopes", Join(p.scopes))
    requires Holds(m, "expires", ExpiresText(p))
    ensures DecodePolicy(m, ceiling) == Success(p)
  {
    hide SignedDecimal, Decimal, ParseUnsigned, ParseSigned, Join, SplitCommas, IsToken;
    AdminParses(p);
    if p.expires.Some? {
      SignedParses(p.expires.value);
    }
    if p.admin.Some? {
      SplitOfJoin(p.scopes);
    } else {
      JoinOfNothing(p.scopes);
    }
  }

  predicate IssueHeld(m: Fields, r: IssueRow)
  {
    && Holds(m, "v", "2") && Holds(m, "kind", "issue") && KnownKeys(m, ISSUE_KEYS)
    && Holds(m, "cap", r.cap) && Holds(m, "scope", r.scope) && Holds(m, "ceiling", Decimal(r.ceiling))
    && Holds(m, "role", r.role) && Holds(m, "key", r.key) && Holds(m, "keyfp", r.keyPrint)
    && Holds(m, "issuer", r.issuer) && Holds(m, "capgen", Decimal(r.capgen)) && Holds(m, "user", r.user)
    && Holds(m, "reason", r.reason) && Holds(m, "label", r.displayLabel)
    && Holds(m, "admin", AdminText(r.policy)) && Holds(m, "scopes", Join(r.policy.scopes))
    && Holds(m, "expires", ExpiresText(r.policy))
  }

  lemma IssueIsHeld(r: IssueRow, m: Fields)
    requires Gives(m, ISSUE_KEYS, IssueValues(r))
    ensures IssueHeld(m, r)
  {
    hide Holds, KnownKeys, Decimal, AdminText, Join, ExpiresText;
    var keys, values := ISSUE_KEYS, IssueValues(r);
    assert forall i :: 0 <= i < |keys| ==> Holds(m, keys[i], values[i]);
    assert Holds(m, keys[0], values[0]) && Holds(m, keys[1], values[1]) && Holds(m, keys[2], values[2]);
    assert Holds(m, keys[3], values[3]) && Holds(m, keys[4], values[4]) && Holds(m, keys[5], values[5]);
    assert Holds(m, keys[6], values[6]) && Holds(m, keys[7], values[7]) && Holds(m, keys[8], values[8]);
    assert Holds(m, keys[9], values[9]) && Holds(m, keys[10], values[10]) && Holds(m, keys[11], values[11]);
    assert Holds(m, keys[12], values[12]) && Holds(m, keys[13], values[13]) && Holds(m, keys[14], values[14]);
    assert Holds(m, keys[15], values[15]);
  }

  lemma IssueDecodes(r: IssueRow, m: Fields)
    requires IssueOk(r) && Gives(m, ISSUE_KEYS, IssueValues(r))
    ensures DecodeFields(m) == Success(Issue(r))
  {
    hide DecodeIssue, Need, IssueOk, Gives;
    IssueIsHeld(r, m);
    NeedFinds(m, "v", "2");
    NeedFinds(m, "kind", "issue");
    IssueRowDecodes(r, m);
  }

  lemma IssueRowDecodes(r: IssueRow, m: Fields)
    requires IssueOk(r) && IssueHeld(m, r)
    ensures DecodeIssue(m) == Success(r)
  {
    hide Need, NeedNumber, DecodePolicy, Holds, KnownKeys, IsToken, IsUtf8, PolicyOk, Decimal;
    NeedFinds(m, "cap", r.cap);
    NeedFinds(m, "scope", r.scope);
    NumberFinds(m, "ceiling", r.ceiling, U8_MAX);
    NeedFinds(m, "role", r.role);
    NeedFinds(m, "key", r.key);
    NeedFinds(m, "keyfp", r.keyPrint);
    NeedFinds(m, "issuer", r.issuer);
    NumberFinds(m, "capgen", r.capgen, U32_MAX);
    NeedFinds(m, "user", r.user);
    NeedFinds(m, "reason", r.reason);
    NeedFinds(m, "label", r.displayLabel);
    PolicyDecodes(r.policy, r.ceiling, m);
  }

  lemma RevokeDecodes(r: RevokeRow, m: Fields)
    requires RevokeOk(r) && Gives(m, REVOKE_KEYS, RevokeValues(r))
    ensures DecodeFields(m) == Success(Revoke(r))
  {
    hide Decimal, ParseUnsigned, IsToken, IsUtf8;
    var keys := REVOKE_KEYS;
    assert Holds(m, keys[0], "2") && Holds(m, keys[1], "revoke") && Holds(m, keys[2], r.cap);
    assert Holds(m, keys[3], r.key) && Holds(m, keys[4], Decimal(r.capgen)) && Holds(m, keys[5], r.issuer);
    assert Holds(m, keys[6], r.reason);
    DecimalParses(r.capgen, U32_MAX);
  }

  lemma BootstrapDecodes(r: BootstrapRow, m: Fields)
    requires BootstrapOk(r) && Gives(m, BOOTSTRAP_KEYS, BootstrapValues(r))
    ensures DecodeFields(m) == Success(Bootstrap(r))
  {
    hide Decimal, ParseUnsigned, IsToken, IsUtf8;
    var keys := BOOTSTRAP_KEYS;
    assert Holds(m, keys[0], "2") && Holds(m, keys[1], "bootstrap") && Holds(m, keys[2], r.user);
    assert Holds(m, keys[3], r.issuer) && Holds(m, keys[4], r.reason) && Holds(m, keys[5], Decimal(r.generation));
    DecimalParses(r.generation, U32_MAX);
  }

  /** Every admission row that access writes reads back as itself, byte for byte. */
  lemma RowReadsBack(row: Row)
    requires RowOk(row)
    ensures DecodeRow(EncodeRow(row)) == Success(row)
  {
    hide SplitDescriptor, Render, DecodeFields, Gives, IssueOk, RevokeOk, BootstrapOk, EscapedFields, KeysOk,
         AllUtf8, IssueValues, RevokeValues, BootstrapValues, ISSUE_KEYS, REVOKE_KEYS, BOOTSTRAP_KEYS;
    ValuesAreUtf8(row);
    KeysAreOk(row);
    EscapedGives(Keys(row), Values(row));
    var m := SplitDescriptor(EncodeRow(row)).value;
    match row
    case Bootstrap(b) => BootstrapDecodes(b, m);
    case Issue(i) => IssueDecodes(i, m);
    case Revoke(r) => RevokeDecodes(r, m);
  }
}
