/** Proposed bindings: their values, their texts, and the structural proposal. */
module Bindings {
  import opened Wrappers
  import opened Framing
  import opened Tokens
  import opened Descriptor
  import opened DescriptorFields

  datatype Class = Service | Location
  datatype Role = Sense | Drive
  datatype Feedback = Absent | Single(role: Role) | Ambiguous
  datatype Status = Imported | Valid | ObservedQualified

  /** A unit and a mode are their labels: parsing and rendering a label is the identity. */
  datatype Binding = Binding(
    endpoint: Text, class_: Class, escope: Text, equipment: Text, property: Text, pscope: Text, source: Text,
    unit: Text, mode: Option<Text>, requested: Role, effective: Role, feedback: Feedback, status: Status)

  predicate IsName(t: Text) { 0 < |t| <= 128 && IsUtf8(t) }

  predicate BindingOk(b: Binding)
  {
    && IsToken(b.endpoint) && IsToken(b.escope) && IsToken(b.equipment) && IsToken(b.property)
    && IsToken(b.pscope) && IsToken(b.source) && IsName(b.unit) && (b.mode.Some? ==> IsName(b.mode.value))
  }

  // ------------------------------------------------------------------- texts

  function ClassText(c: Class): Text { if c.Service? then "service" else "location" }

  function ParseClass(t: Text): Option<Class>
  {
    if t == "service" then Some(Service) else if t == "location" then Some(Location) else None
  }

  function RoleText(r: Role): Text { if r.Sense? then "sense" else "drive" }

  function ParseRole(t: Text): Option<Role>
  {
    if t == "sense" then Some(Sense) else if t == "drive" then Some(Drive) else None
  }

  function FeedbackText(f: Feedback): Text
  {
    match f
    case Absent => "absent"
    case Single(role) => RoleText(role)
    case Ambiguous => "ambiguous"
  }

  function ParseFeedback(t: Text): Option<Feedback>
  {
    if t == "absent" then Some(Absent)
    else if t == "sense" then Some(Single(Sense))
    else if t == "drive" then Some(Single(Drive))
    else if t == "ambiguous" || t == "sense+drive" then Some(Ambiguous)
    else None
  }

  function StatusText(s: Status): Text
  {
    match s
    case Imported => "imported"
    case Valid => "valid"
    case ObservedQualified => "observed-qualified"
  }

  function ParseStatus(t: Text): Option<Status>
  {
    if t == "imported" then Some(Imported)
    else if t == "valid" then Some(Valid)
    else if t == "observed-qualified" then Some(ObservedQualified)
    else None
  }

  function ModeText(mode: Option<Text>): Text { if mode.Some? then mode.value else "-" }

  /** `-` stands for no mode; any other nonempty label of at most 128 bytes is a mode. */
  function ParseMode(t: Text): Result<Option<Text>, Fault>
  {
    if t == "-" then Success(None) else if 0 < |t| <= 128 then Success(Some(t)) else Failure(BadField)
  }

  /** The thirteen texts of a binding, in canonical order. */
  function Parts(b: Binding): seq<Text>
  {
    [b.endpoint, ClassText(b.class_), b.escope, b.equipment, b.property, b.pscope, b.source, b.unit,
     ModeText(b.mode), RoleText(b.requested), RoleText(b.effective), FeedbackText(b.feedback), StatusText(b.status)]
  }

  const PART_KEYS: seq<Text> :=
    ["endpoint", "eclass", "escope", "equipment", "property", "pscope", "source", "unit", "mode", "requested",
     "effective", "feedback", "status"]

  // ----------------------------------------------------------------- decoding

  function Known<T>(parsed: Option<T>): Result<T, Fault>
  {
    if parsed.Some? then Success(parsed.value) else Failure(BadField)
  }

  function NeedToken(m: Fields, key: Text): Result<Text, Fault>
  {
    var t :- Need(m, key);
    if IsToken(t) then Success(t) else Failure(BadField)
  }

  function NeedMode(m: Fields): Result<Option<Text>, Fault>
  {
    var raw :- Need(m, "mode");
    ParseMode(raw)
  }

  function NeedClass(m: Fields, key: Text): Result<Class, Fault>
  {
    var raw :- Need(m, key);
    Known(ParseClass(raw))
  }

  function NeedRole(m: Fields, key: Text): Result<Role, Fault>
  {
    var raw :- Need(m, key);
    Known(ParseRole(raw))
  }

  function NeedUnit(m: Fields): Result<Text, Fault>
  {
    var unit :- Need(m, "unit");
    if 0 < |unit| <= 128 then Success(unit) else Failure(BadField)
  }

  /** `decode_propose`: require and parse the thirteen fields in order. */
  function DecodeBinding(m: Fields): Result<Binding, Fault>
  {
    hide Need, NeedToken, NeedMode, NeedRole, NeedClass, NeedUnit, ParseFeedback, ParseStatus;
    var endpoint :- NeedToken(m, "endpoint");
    var class_ :- NeedClass(m, "eclass");
    var escope :- NeedToken(m, "escope");
    var equipment :- NeedToken(m, "equipment");
    var property :- NeedToken(m, "property");
    var pscope :- NeedToken(m, "pscope");
    var source :- NeedToken(m, "source");
    var unit :- NeedUnit(m);
    var mode :- NeedMode(m);
    var requested :- NeedRole(m, "requested");
    var effective :- NeedRole(m, "effective");
    var feedbackText :- Need(m, "feedback");
    var feedback :- Known(ParseFeedback(feedbackText));
    var statusText :- Need(m, "status");
    var status :- Known(ParseStatus(statusText));
    Success(Binding(endpoint, class_, escope, equipment, property, pscope, source, unit, mode, requested,
                    effective, feedback, status))
  }

  lemma EnumTexts(c: Class, r: Role, f: Feedback, s: Status)
    ensures ParseClass(ClassText(c)) == Some(c) && ParseRole(RoleText(r)) == Some(r)
    ensures ParseFeedback(FeedbackText(f)) == Some(f) && ParseStatus(StatusText(s)) == Some(s)
  {
  }

  /** The fields as they should be found, all but the mode. */
  predicate PartsHeld(m: Fields, b: Binding)
  {
    && Holds(m, "endpoint", b.endpoint) && Holds(m, "eclass", ClassText(b.class_)) && Holds(m, "escope", b.escope)
    && Holds(m, "equipment", b.equipment) && Holds(m, "property", b.property) && Holds(m, "pscope", b.pscope)
    && Holds(m, "source", b.source) && Holds(m, "unit", b.unit)
    && Holds(m, "requested", RoleText(b.requested)) && Holds(m, "effective", RoleText(b.effective))
    && Holds(m, "feedback", FeedbackText(b.feedback)) && Holds(m, "status", StatusText(b.status))
  }

  /** Everything but the mode reads back; the mode is what its text parses to. */
  lemma PartsDecode(m: Fields, b: Binding)
    requires BindingOk(b) && PartsHeld(m, b) && "mode" in m
    ensures ParseMode(m["mode"]).Failure? ==> DecodeBinding(m).Failure?
    ensures ParseMode(m["mode"]).Success? ==> DecodeBinding(m) == Success(b.(mode := ParseMode(m["mode"]).value))
  {
    hide IsToken, IsUtf8, ParseClass, ParseRole, ParseFeedback, ParseStatus, ClassText, RoleText, FeedbackText,
         StatusText, ParseMode;
    EnumTexts(b.class_, b.requested, b.feedback, b.status);
    EnumTexts(b.class_, b.effective, b.feedback, b.status);
  }

  /** A mode label that is not the dash parses back to itself, and only such a one does. */
  lemma ModeParses(mode: Option<Text>)
    requires mode.Some? ==> IsName(mode.value)
    ensures ParseMode(ModeText(mode)) == Success(mode) <==> mode != Some("-")
  {
    hide IsUtf8;
  }

  // ------------------------------------------------------------ proposing

  datatype Refusal = ScopeDenied | EndpointConfusion | WrongUnit | WrongRole | AmbiguousFeedback

  /** `propose`, checks in their frozen order, against the recorded point. */
  function Propose(b: Binding, unit: Text, class_: Class): Result<(), Refusal>
  {
    if b.escope != b.pscope then Failure(ScopeDenied)
    else if b.class_ != class_ then Failure(EndpointConfusion)
    else if b.unit != unit then Failure(WrongUnit)
    else if b.requested != b.effective then Failure(WrongRole)
    else if b.feedback.Ambiguous? then Failure(AmbiguousFeedback)
    else Success(())
  }
}
