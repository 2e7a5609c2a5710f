/**
 The two durable records of the acceptance chain, as the framed bytes that are
 stored and as the checks a reader makes before it believes a row.
 */
module AcceptRecords {
  import opened Wrappers
  import opened Framing
  import opened Tokens

  const MAX_ACCEPTED: nat := 256
  const U32_MAX: nat := 0xFFFF_FFFF
  const MAX_RECORD: nat := 8192
  /** No field of a record is longer: an actor reference names three tokens and a number. */
  const MAX_FIELD: nat := 600

  datatype AcceptanceRequest = AcceptanceRequest(
    operation: Text, expected: nat, scope: Text, staged: Text, seal: Text)

  datatype ActivationRequest = ActivationRequest(
    operation: Text, expected: nat, acceptance: AcceptanceRequest)

  datatype Accepted = Accepted(id: nat, revision: nat, request: AcceptanceRequest, actor: Text)

  datatype Activated = Activated(id: nat, generation: nat, revision: nat, request: ActivationRequest)

  /** A row as a reader selects it: id, sequence column, value column. */
  datatype Row = Row(id: nat, number: nat, value: Text)

  datatype Error =
    | Invalid
    | Limit
    | Conflict
    | Blocked
    | StaleGeneration(expected: nat, current: nat)
    | Superseded(requested: nat, current: nat)
    | BadRecord(fault: FrameFault)

  predicate RequestOk(r: AcceptanceRequest)
  {
    IsToken(r.operation) && IsToken(r.scope) && IsToken(r.staged) && IsDigest(r.seal)
    && r.expected < MAX_ACCEPTED
  }

  predicate ActivationOk(q: ActivationRequest)
  {
    IsToken(q.operation) && RequestOk(q.acceptance) && q.expected < MAX_ACCEPTED
  }

  function AcceptedFields(r: AcceptanceRequest, actor: Text): seq<Text>
  {
    ["verdant-accepted-v1", r.operation, Decimal(r.expected), Decimal(r.expected + 1), r.scope,
     r.staged, r.seal, actor, "accepted"]
  }

  function ActiveFields(q: ActivationRequest): seq<Text>
  {
    var a := q.acceptance;
    ["verdant-active-v1", q.operation, Decimal(q.expected), Decimal(q.expected + 1), a.scope,
     a.operation, Decimal(a.expected), Decimal(a.expected + 1), a.staged, a.seal, "activated"]
  }

  function AcceptedBytes(r: AcceptanceRequest, actor: Text): Text { Encode(AcceptedFields(r, actor)) }

  function ActiveBytes(q: ActivationRequest): Text { Encode(ActiveFields(q)) }

  function Decoded(raw: Text, maxFields: nat): Result<seq<Text>, Error>
  {
    match DecodeSpec(raw, MAX_RECORD, maxFields)
    case Success(fields) => Success(fields)
    case Failure(fault) => Failure(BadRecord(fault))
  }

  function AcceptedRequest(f: seq<Text>, scope: Text, index: nat): AcceptanceRequest
    requires |f| == 9
  {
    AcceptanceRequest(f[1], index, scope, f[5], f[6])
  }

  /** One pass of the accepted-history loop over row `index`. */
  function ReadAccepted(scope: Text, index: nat, row: Row, seen: set<Text>): Result<Accepted, Error>
  {
    if row.number != index + 1 then Failure(Invalid)
    else
      var f :- Decoded(row.value, 9);
      if |f| != 9 || f[0] != "verdant-accepted-v1" || f[4] != scope || f[8] != "accepted"
         || f[2] != Decimal(index) || f[3] != Decimal(row.number) || row.id == 0 || f[1] in seen
      then Failure(Invalid)
      else if !IsToken(f[1]) || !IsToken(f[5]) then Failure(Invalid)
      else if index >= MAX_ACCEPTED then Failure(Limit)
      else if !IsDigest(f[6]) then Failure(Invalid)
      else
        var request := AcceptedRequest(f, scope, index);
        if AcceptedBytes(request, f[7]) != row.value then Failure(Invalid)
        else Success(Accepted(row.id, index + 1, request, f[7]))
  }

  /** Some accepted row with this very request precedes row `id`. */
  predicate Joins(accepted: seq<Accepted>, request: AcceptanceRequest, id: nat)
  {
    exists k :: 0 <= k < |accepted| && accepted[k].request == request && accepted[k].id < id
  }

  /** One pass of the activation-history loop over row `index`. */
  function ReadActive(scope: Text, index: nat, row: Row, seen: set<Text>, revision: nat,
                      accepted: seq<Accepted>): Result<Activated, Error>
  {
    if row.number != index + 1 then Failure(Invalid)
    else
      var f :- Decoded(row.value, 11);
      if |f| != 11 || f[0] != "verdant-active-v1" || f[4] != scope || f[2] != Decimal(index)
         || f[3] != Decimal(row.number) || f[10] != "activated" || row.id == 0 || f[1] in seen
      then Failure(Invalid)
      else
        if !IsToken(f[5]) then Failure(Invalid)
        else
          match Number(f[6], U32_MAX)
          case Failure(fault) => Failure(BadRecord(fault))
          case Success(base) =>
            if base > MAX_ACCEPTED then Failure(Limit)
            else if !IsToken(f[8]) || !IsDigest(f[9]) then Failure(Invalid)
            else if base == MAX_ACCEPTED then Failure(Limit)
            else
              var acceptance := AcceptanceRequest(f[5], base, scope, f[8], f[9]);
              var request := ActivationRequest(f[1], index, acceptance);
              if f[7] != Decimal(base + 1) || base + 1 <= revision || !Joins(accepted, acceptance, row.id)
                 || !IsToken(f[1])
              then Failure(Invalid)
              else if index >= MAX_ACCEPTED then Failure(Limit)
              else if ActiveBytes(request) != row.value then Failure(Invalid)
              else Success(Activated(row.id, index + 1, base + 1, request))
  }

  // ------------------------------------------------------------ reading back

  lemma ShortDecimal(n: nat)
    requires n < 10000
    ensures |Decimal(n)| <= 4
  {
    DecimalLength(n, 4);
  }

  lemma {:induction false} EncodeBound(fields: seq<Text>)
    requires forall i :: 0 <= i < |fields| ==> |fields[i]| <= MAX_FIELD
    ensures |Encode(fields)| <= 605 * |fields|
  {
    hide Decimal;
    if fields != [] {
      ShortDecimal(|fields[0]|);
      EncodeBound(fields[1..]);
    }
  }

  /** A record of at most eleven short fields decodes to exactly those fields. */
  lemma RecordDecodes(fields: seq<Text>, maxFields: nat)
    requires |fields| <= maxFields && |fields| <= 11
    requires forall i :: 0 <= i < |fields| ==> |fields[i]| <= MAX_FIELD
    ensures Decoded(Encode(fields), maxFields) == Success(fields)
  {
    hide Encode, DecodeSpec;
    EncodeBound(fields);
    DecodesExactlyEncodings(Encode(fields), fields, MAX_RECORD, maxFields);
  }

  /** What the accepting writer stores is what the accepted-history reader accepts. */
  lemma AcceptedReadsBack(r: AcceptanceRequest, actor: Text, id: nat, seen: set<Text>)
    requires RequestOk(r) && |actor| <= MAX_FIELD && id > 0 && r.operation !in seen
    ensures ReadAccepted(r.scope, r.expected, Row(id, r.expected + 1, AcceptedBytes(r, actor)), seen)
         == Success(Accepted(id, r.expected + 1, r, actor))
  {
    hide Encode, Decimal, Decoded;
    ShortDecimal(r.expected);
    ShortDecimal(r.expected + 1);
    RecordDecodes(AcceptedFields(r, actor), 9);
  }

  /** What the activating writer stores is what the activation-history reader accepts. */
  lemma ActiveReadsBack(q: ActivationRequest, id: nat, seen: set<Text>, revision: nat,
                        accepted: seq<Accepted>)
    requires ActivationOk(q) && id > 0 && q.operation !in seen
    requires revision <= q.acceptance.expected && Joins(accepted, q.acceptance, id)
    ensures ReadActive(q.acceptance.scope, q.expected, Row(id, q.expected + 1, ActiveBytes(q)), seen,
                       revision, accepted)
         == Success(Activated(id, q.expected + 1, q.acceptance.expected + 1, q))
  {
    hide Encode, Decimal, Decoded, Number, Joins;
    var base := q.acceptance.expected;
    ShortDecimal(q.expected);
    ShortDecimal(q.expected + 1);
    ShortDecimal(base);
    ShortDecimal(base + 1);
    NumberReadsCanonicalDecimals(Decimal(base), base, U32_MAX);
    RecordDecodes(ActiveFields(q), 11);
  }
}
