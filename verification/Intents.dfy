/**
 The API's intents and their rows as text: eight framed fields that decode to
 exactly one intent.
 */
module Intents {
  import opened Wrappers
  import opened Framing
  import opened Tokens

  datatype Kind = Draft | Edit | Seal | Accept | Finding | Provision | Recover | Rotate

  datatype Intent = Intent(
    operation: Text, scope: Text, kind: Kind, subject: Text, parent: Option<Text>, request: Text, actor: Text)

  datatype Error = Invalid | Limit | Missing | Conflict | SealedMutation

  const MAX_INTENT: nat := 65536
  const VERSION := "verdant-api-v1"

  function KindText(k: Kind): Text
  {
    match k
    case Draft => "draft"
    case Edit => "edit"
    case Seal => "seal"
    case Accept => "accept"
    case Finding => "finding"
    case Provision => "provision"
    case Recover => "recover"
    case Rotate => "rotate"
  }

  function ParseKind(t: Text): Option<Kind>
  {
    match t
    case "draft" => Some(Draft)
    case "edit" => Some(Edit)
    case "seal" => Some(Seal)
    case "accept" => Some(Accept)
    case "finding" => Some(Finding)
    case "provision" => Some(Provision)
    case "recover" => Some(Recover)
    case "rotate" => Some(Rotate)
    case _ => None
  }

  /** The API's operation namespace. */
  predicate IsOperation(t: Text) { "api-" <= t && |t| <= 80 && IsToken(t) }

  predicate IntentOk(i: Intent)
  {
    IsOperation(i.operation) && IsToken(i.scope) && IsOperation(i.subject)
    && (i.parent.Some? ==> IsOperation(i.parent.value))
  }

  function ParentText(parent: Option<Text>): Text { if parent.Some? then parent.value else "" }

  function Bytes(i: Intent): Text
  {
    Encode([VERSION, i.operation, i.scope, KindText(i.kind), i.subject, ParentText(i.parent), i.request, i.actor])
  }

  function FromFields(f: seq<Text>): Result<Intent, Error>
  {
    if |f| != 8 || f[0] != VERSION || !IsOperation(f[1]) || !IsToken(f[2]) || ParseKind(f[3]).None?
       || !IsOperation(f[4]) || (f[5] != "" && !IsOperation(f[5]))
    then Failure(Invalid)
    else Success(Intent(f[1], f[2], ParseKind(f[3]).value, f[4], if f[5] == "" then None else Some(f[5]), f[6], f[7]))
  }

  function DecodeIntent(raw: Text): Result<Intent, Error>
  {
    match DecodeSpec(raw, MAX_INTENT, 8)
    case Failure(fault) => Failure(if fault.TooManyBytes? || fault.TooManyFields? then Limit else Invalid)
    case Success(f) =>
      var i :- FromFields(f);
      if Bytes(i) != raw then Failure(Invalid) else Success(i)
  }

  /** A text decodes to an intent exactly when it is that valid intent's encoding, within the limit. */
  lemma IntentReadsBackExactly(raw: Text, i: Intent)
    ensures DecodeIntent(raw) == Success(i) <==> raw == Bytes(i) && IntentOk(i) && |raw| <= MAX_INTENT
  {
    hide DecodeSpec, Encode, IsToken;
    var f := [VERSION, i.operation, i.scope, KindText(i.kind), i.subject, ParentText(i.parent), i.request, i.actor];
    DecodesExactlyEncodings(raw, f, MAX_INTENT, 8);
    if DecodeIntent(raw) == Success(i) {
      var g := DecodeSpec(raw, MAX_INTENT, 8).value;
      DecodesExactlyEncodings(raw, g, MAX_INTENT, 8);
    }
  }
}
